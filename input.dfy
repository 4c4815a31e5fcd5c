/** The player's turn: how one DOM event is resolved to a pad, and the collector
    (playerRound) that accumulates resolved pads until it has as many as the level. */
module Input {
  import opened Wrappers
  import opened Palette
  import Sound
  import opened Controls

  /** One event delivered to the shared handler.  `key` is present on key-down
      events only.  `target` is the `value` of the element the event is aimed at:
      the clicked pad for a click, the element that has focus for a key-down. */
  datatype InputEvent = InputEvent(key: Option<string>, target: Option<string>)

  /** The key bound to each pad. */
  function BoundKey(c: Color): string {
    match c
    case Red => "q"
    case Yellow => "w"
    case Green => "a"
    case Blue => "s"
  }

  /** The pad a key is bound to, if any. */
  function KeyColor(k: string): (r: Option<Color>)
    ensures r.Some? ==> BoundKey(r.value) == k
    ensures r.None? ==> k !in {"q", "w", "a", "s"}
  {
    if k == "q" then Some(Red)
    else if k == "w" then Some(Yellow)
    else if k == "a" then Some(Green)
    else if k == "s" then Some(Blue)
    else None
  }

  /** Of two pads, the one the handler's branch chain tests first: red, yellow, green, blue. */
  function Earlier(c: Color, d: Color): Color {
    if c == Red || d == Red then Red
    else if c == Yellow || d == Yellow then Yellow
    else if c == Green || d == Green then Green
    else Blue
  }

  /** The handler's branch chain exactly as written: each branch accepts either the
      pad's key or the pad's value on the target, whatever kind of event it is. */
  function ChoiceAsWritten(e: InputEvent): (r: Option<Color>)
    ensures r.Some? ==> e.key == Some(BoundKey(r.value)) || e.target == Some(Name(r.value))
    ensures r.None? <==> (e.key.None? || KeyColor(e.key.value).None?) &&
                         (e.target.None? || Named(e.target.value).None?)
    ensures e.key.Some? && KeyColor(e.key.value).Some? && e.target.Some? && Named(e.target.value).Some? ==>
              r == Some(Earlier(KeyColor(e.key.value).value, Named(e.target.value).value))
  {
    if e.key == Some("q") || e.target == Some("red") then Some(Red)
    else if e.key == Some("w") || e.target == Some("yellow") then Some(Yellow)
    else if e.key == Some("a") || e.target == Some("green") then Some(Green)
    else if e.key == Some("s") || e.target == Some("blue") then Some(Blue)
    else None
  }

  /** The pad the handler evidently means to choose: a key-down by its key, a click
      by the clicked pad's value.  The collector below uses this resolution. */
  function Choice(e: InputEvent): (r: Option<Color>)
    ensures r.Some? && e.key.Some? ==> e.key.value == BoundKey(r.value)
    ensures r.Some? && e.key.None? ==> e.target == Some(Name(r.value))
  {
    match e.key
    case Some(k) => KeyColor(k)
    case None => if e.target.Some? then Named(e.target.value) else None
  }

  /** The note the handler plays: by the clicked value when there is no key, else by the key. */
  function HandlerNote(e: InputEvent): (n: Option<string>)
    ensures n.Some? ==> n.value in {"c4", "d4", "e4", "f4"}
  {
    match e.key
    case None => if e.target.Some? then Sound.Note(e.target.value, Sound.Click) else None
    case Some(k) => Sound.Note(k, Sound.Key)
  }

  /** A pad's key and the pad itself sound the same note, and different pads sound different notes. */
  lemma KeyAndPadSoundAlike(c: Color, d: Color)
    ensures Sound.Note(BoundKey(c), Sound.Key) == Sound.Note(Name(c), Sound.Click)
    ensures Sound.Note(Name(c), Sound.Click).Some?
    ensures c != d ==> Sound.Note(Name(c), Sound.Click) != Sound.Note(Name(d), Sound.Click)
    ensures c == Red ==> Sound.Note(Name(c), Sound.Click) == Some("c4")
    ensures c == Yellow ==> Sound.Note(Name(c), Sound.Click) == Some("d4")
    ensures c == Green ==> Sound.Note(Name(c), Sound.Click) == Some("e4")
    ensures c == Blue ==> Sound.Note(Name(c), Sound.Click) == Some("f4")
  {
  }

  /** With the intended resolution the sound always matches the chosen pad: an event
      chooses a pad exactly when it plays a note, and then it plays that pad's note. */
  lemma ChoiceMatchesSound(e: InputEvent)
    ensures Choice(e).None? <==> HandlerNote(e).None?
    ensures Choice(e).Some? ==> HandlerNote(e) == Sound.Note(Name(Choice(e).value), Sound.Click)
  {
    match e.key
    case Some(k) =>
      if KeyColor(k).Some? {
        KeyAndPadSoundAlike(KeyColor(k).value, KeyColor(k).value);
      }
    case None =>
  }

  /** The written chain agrees with the intended one on every click, and on every
      key-down whose target is not a pad. */
  lemma {:induction false} AsWrittenAgreesOffPads(e: InputEvent)
    requires e.key.None? || e.target.None? || Named(e.target.value).None?
    ensures ChoiceAsWritten(e) == Choice(e)
  {
    if e.target.Some? && e.key.Some? {
      assert forall c :: e.target != Some(Name(c));
    }
  }

  /** A key-down while a pad has focus is resolved to the focused pad, not to the
      key: "w" on a focused red pad chooses red yet sounds yellow's note, and an
      unbound key such as "x" chooses the focused pad too. */
  lemma FocusedPadTakesKeyDown()
    ensures ChoiceAsWritten(InputEvent(Some("w"), Some("red"))) == Some(Red)
    ensures Choice(InputEvent(Some("w"), Some("red"))) == Some(Yellow)
    ensures HandlerNote(InputEvent(Some("w"), Some("red"))) == Some("d4")
    ensures Sound.Note(Name(Red), Sound.Click) == Some("c4")
    ensures ChoiceAsWritten(InputEvent(Some("x"), Some("red"))) == Some(Red)
    ensures Choice(InputEvent(Some("x"), Some("red"))).None?
  {
  }

  /** How the handler resolves an event to a pad: ChoiceAsWritten is the branch
      chain of the source, Choice the corrected resolution. */
  type Resolver = InputEvent -> Option<Color>

  /** The collector's state: the pads chosen so far and whether its listeners are still attached. */
  datatype Collection = Collection(choices: seq<Color>, attached: bool)

  /** One run of the handler: append the chosen pad, if any, then compare the
      length with the expected count, whether or not anything was appended. */
  function Handled(choose: Resolver, s: Collection, expected: int, e: InputEvent): Collection {
    var choices := s.choices + AsSeq(choose(e));
    Collection(choices, |choices| != expected)
  }

  /** An event reaches the handler only while the listeners are attached. */
  function Deliver(choose: Resolver, s: Collection, expected: int, e: InputEvent): Collection {
    if s.attached then Handled(choose, s, expected, e) else s
  }

  /** The collector's state after the given events, from a fresh start. */
  function Run(choose: Resolver, expected: int, es: seq<InputEvent>): Collection {
    if es == [] then Collection([], true)
    else Deliver(choose, Run(choose, expected, es[..|es| - 1]), expected, es[|es| - 1])
  }

  /** The pads the given events choose, in order, ignoring unrecognised events. */
  function Recognised(choose: Resolver, es: seq<InputEvent>): (r: seq<Color>)
    ensures |r| <= |es|
  {
    if es == [] then [] else Recognised(choose, es[..|es| - 1]) + AsSeq(choose(es[|es| - 1]))
  }

  /** At a positive expected count the collector holds the recognised pads in input
      order until it has `expected` of them, then detaches holding exactly the first `expected`. */
  lemma {:induction false} RunPositive(choose: Resolver, expected: int, es: seq<InputEvent>)
    requires expected >= 1
    ensures var rec := Recognised(choose, es);
            Run(choose, expected, es) ==
              if |rec| < expected then Collection(rec, true) else Collection(rec[..expected], false)
  {
    if es != [] {
      var init := es[..|es| - 1];
      RunPositive(choose, expected, init);
      var rec, rec' := Recognised(choose, es), Recognised(choose, init);
      assert rec == rec' + AsSeq(choose(es[|es| - 1]));
      if |rec'| >= expected {
        assert rec[..expected] == rec'[..expected];
      } else {
        assert |rec| <= expected;
        assert |rec| == expected ==> rec[..expected] == rec;
      }
    }
  }

  /** Whatever the count, the collector holds a prefix of the recognised pads, and
      all of them while its listeners are still attached. */
  lemma {:induction false} RunPrefix(choose: Resolver, expected: int, es: seq<InputEvent>)
    ensures Run(choose, expected, es).choices <= Recognised(choose, es)
    ensures Run(choose, expected, es).attached ==> Run(choose, expected, es).choices == Recognised(choose, es)
  {
    if es != [] {
      RunPrefix(choose, expected, es[..|es| - 1]);
    }
  }

  /** At a negative expected count the collector never detaches. */
  lemma {:induction false} RunNegative(choose: Resolver, expected: int, es: seq<InputEvent>)
    requires expected < 0
    ensures Run(choose, expected, es) == Collection(Recognised(choose, es), true)
  {
    if es != [] {
      RunNegative(choose, expected, es[..|es| - 1]);
    }
  }

  lemma {:induction false} RecognisedFirst(choose: Resolver, es: seq<InputEvent>)
    requires es != []
    ensures choose(es[0]).Some? ==> |Recognised(choose, es)| >= 1
    ensures choose(es[0]).None? ==> Recognised(choose, es) == Recognised(choose, es[1..])
  {
    if |es| > 1 {
      var init := es[..|es| - 1];
      RecognisedFirst(choose, init);
      assert init[0] == es[0];
      assert init[1..] == es[1..][..|es[1..]| - 1];
    } else {
      assert es[1..] == [];
    }
  }

  /** At expected count zero the length check can succeed only before anything
      has been appended: the first event detaches the collector with nothing if it
      is unrecognised; if it is recognised the collector never detaches. */
  lemma {:induction false} RunZero(choose: Resolver, es: seq<InputEvent>)
    ensures Run(choose, 0, es) ==
              if es == [] then Collection([], true)
              else if choose(es[0]).None? then Collection([], false)
              else Collection(Recognised(choose, es), true)
  {
    if |es| > 1 {
      var init := es[..|es| - 1];
      RunZero(choose, init);
      assert init[0] == es[0];
      if choose(es[0]).Some? {
        RecognisedFirst(choose, init);
      }
    } else if |es| == 1 {
      assert es[..0] == [];
    }
  }

  /** Once detached, the collector ignores every later event. */
  lemma {:induction false} RunDetachedStable(choose: Resolver, expected: int, es: seq<InputEvent>, more: seq<InputEvent>)
    requires !Run(choose, expected, es).attached
    ensures Run(choose, expected, es + more) == Run(choose, expected, es)
  {
    if more != [] {
      var m := more[..|more| - 1];
      RunDetachedStable(choose, expected, es, m);
      assert (es + more)[..|es + more| - 1] == es + m;
    } else {
      assert es + more == es;
    }
  }

  /** A detached collector has handled at least one event and holds exactly `expected` pads. */
  lemma {:induction false} RunDetachedHolds(choose: Resolver, expected: int, es: seq<InputEvent>)
    requires !Run(choose, expected, es).attached
    ensures es != [] && |Run(choose, expected, es).choices| == expected
  {
    var init := es[..|es| - 1];
    if Run(choose, expected, init).attached {
    } else {
      RunDetachedHolds(choose, expected, init);
    }
  }

  /** The collector as written and the corrected collector part on a key-down while
      a pad has focus: "w" on the red pad makes the source's collector hold red and
      the corrected one yellow; "x" on the red pad settles the source's collector at
      count one, while the corrected one keeps waiting. */
  lemma CollectorsPartOnFocusedPad()
    ensures Run(ChoiceAsWritten, 1, [InputEvent(Some("w"), Some("red"))]) == Collection([Red], false)
    ensures Run(Choice, 1, [InputEvent(Some("w"), Some("red"))]) == Collection([Yellow], false)
    ensures Run(ChoiceAsWritten, 1, [InputEvent(Some("x"), Some("red"))]) == Collection([Red], false)
    ensures Run(Choice, 1, [InputEvent(Some("x"), Some("red"))]) == Collection([], true)
  {
    var w, x := InputEvent(Some("w"), Some("red")), InputEvent(Some("x"), Some("red"));
    assert [w][..0] == [] && [x][..0] == [];
    assert ChoiceAsWritten(w) == Some(Red) && Choice(w) == Some(Yellow);
    assert ChoiceAsWritten(x) == Some(Red) && Choice(x).None?;
  }

  /** playerRound's collector.  The listeners are modelled by `attached`; each
      event delivered by the browser runs the handler only while they are attached.
      `choose` is the handler's resolution of an event to a pad. */
  class Collector {
    const choose: Resolver
    const expected: int
    const page: Page
    var choices: seq<Color>
    var attached: bool
    ghost var delivered: seq<InputEvent>

    ghost predicate Valid()
      reads this
    {
      Collection(choices, attached) == Run(choose, expected, delivered)
    }

    /** playerRound(expected): an empty array and listeners on the window and the four pads. */
    constructor (choose: Resolver, expected: int, page: Page)
      ensures Valid() && this.choose == choose && this.expected == expected && this.page == page
      ensures choices == [] && attached && delivered == []
    {
      this.choose := choose;
      this.expected := expected;
      this.page := page;
      choices := [];
      attached := true;
      delivered := [];
    }

    /** The browser delivers one event.  While attached, the handler disables the
      replay button, plays the event's note, flashes and appends the chosen pad, and
      detaches once the length equals the expected count.  Returns the note played
      and the pad flashed. */
    method Deliver(e: InputEvent) returns (note: Option<string>, flashed: Option<Color>)
      requires Valid()
      modifies this, page
      ensures Valid() && delivered == old(delivered) + [e]
      ensures old(attached) ==>
                choices == old(choices) + AsSeq(choose(e)) &&
                attached == (|choices| != expected) &&
                page.replayDisabled &&
                note == HandlerNote(e) && flashed == choose(e)
      ensures !old(attached) ==>
                choices == old(choices) && !attached &&
                page.replayDisabled == old(page.replayDisabled) &&
                note.None? && flashed.None?
      ensures page.startDisabled == old(page.startDisabled)
      ensures page.shownLevel == old(page.shownLevel) && page.shownHighScore == old(page.shownHighScore)
    {
      note, flashed := None, None;
      if attached {
        page.replayDisabled := true;
        note := HandlerNote(e);
        flashed := choose(e);
        choices := choices + AsSeq(flashed);
        attached := |choices| != expected;
      }
      delivered := delivered + [e];
      assert delivered[..|delivered| - 1] == old(delivered);
    }
  }
}
