/** The message box's typing indicator and send action (`MessageInput`).
    The state is the text buffer, whether the box has announced typing, and
    whether the 1000 ms stop timer is pending; the timer firing is an
    explicit `Timeout` event, possible only while the timer is pending. */
module MessageInput {
  import JsText
  import opened Wrappers

  datatype InputState = InputState(message: string, isTyping: bool, timerArmed: bool)

  /** A change of the text, the stop timer firing, or a send attempt (Enter
      or the button) while the box is `disabled` or not. */
  datatype UiEvent = Input(value: string) | Timeout | Send(disabled: bool)

  /** The callbacks the box invokes: `onTypingStart`, `onTypingStop`, `onSendMessage`. */
  datatype Signal = TypingStart | TypingStop | SendMessage(content: string)

  datatype Reaction = Reaction(state: InputState, signals: seq<Signal>)

  /** The state when the box is first shown. */
  const Initial: InputState := InputState("", false, false)

  /** The timer can only fire while it is pending. */
  predicate Enabled(s: InputState, e: UiEvent) {
    e.Timeout? ==> s.timerArmed
  }

  /** `handleInputChange`: store the text, announce typing if not yet typing,
      and restart the stop timer. */
  function OnInput(s: InputState, value: string): (r: Reaction)
    ensures r.state.message == value && r.state.isTyping && r.state.timerArmed
    ensures TypingStart in r.signals <==> !s.isTyping
    ensures forall g :: g in r.signals ==> g == TypingStart
    ensures |r.signals| == if s.isTyping then 0 else 1
  {
    Reaction(InputState(value, true, true), if s.isTyping then [] else [TypingStart])
  }

  /** The stop timer fires: announce the stop and clear the typing flag. */
  function OnTimeout(s: InputState): (r: Reaction)
    requires s.timerArmed
    ensures r.state.message == s.message && !r.state.isTyping && !r.state.timerArmed
    ensures r.signals == [TypingStop]
  {
    Reaction(s.(isTyping := false, timerArmed := false), [TypingStop])
  }

  /** `handleSendMessage`: with a non-blank buffer and an enabled box, send
      the trimmed text, clear the buffer, stop typing if typing, and cancel
      the timer; otherwise do nothing. */
  function OnSend(s: InputState, disabled: bool): (r: Reaction)
    ensures JsText.AllWhitespace(s.message) || disabled ==> r == Reaction(s, [])
    ensures !JsText.AllWhitespace(s.message) && !disabled ==>
      && r.state == InputState("", false, false)
      && |r.signals| > 0 && r.signals[0] == SendMessage(JsText.Trim(s.message))
      && (TypingStop in r.signals <==> s.isTyping)
      && |r.signals| == (if s.isTyping then 2 else 1)
    ensures forall g :: g in r.signals && g.SendMessage? ==> g.content != ""
  {
    JsText.BlankIffAllWhitespace(s.message);
    if JsText.IsBlank(s.message) || disabled then Reaction(s, [])
    else
      var sent := SendMessage(JsText.Trim(s.message));
      var signals := if s.isTyping then [sent, TypingStop] else [sent];
      Reaction(InputState("", false, false), signals)
  }

  function Step(s: InputState, e: UiEvent): Reaction
    requires Enabled(s, e)
  {
    match e
    case Input(value) => OnInput(s, value)
    case Timeout => OnTimeout(s)
    case Send(disabled) => OnSend(s, disabled)
  }

  /** The stop timer is pending exactly while the box is typing. */
  predicate Synced(s: InputState) {
    s.timerArmed == s.isTyping
  }

  lemma StepKeepsSynced(s: InputState, e: UiEvent)
    requires Synced(s) && Enabled(s, e)
    ensures Synced(Step(s, e).state)
  {
  }

  /** Replays the start/stop signals from a typing flag: `None` when a start
      comes while typing or a stop while not typing, otherwise the final flag. */
  function Track(signals: seq<Signal>, typing: bool): Option<bool>
    decreases |signals|
  {
    if |signals| == 0 then Some(typing)
    else match signals[0]
      case TypingStart => if typing then None else Track(signals[1..], true)
      case TypingStop => if typing then Track(signals[1..], false) else None
      case SendMessage(_) => Track(signals[1..], typing)
  }

  lemma {:induction false} TrackAppend(a: seq<Signal>, b: seq<Signal>, typing: bool)
    ensures Track(a + b, typing) ==
      match Track(a, typing) case None => None case Some(t) => Track(b, t)
    decreases |a|
  {
    if |a| == 0 {
      assert a + b == b;
    } else {
      assert (a + b)[1..] == a[1..] + b;
      match a[0]
      case TypingStart => if !typing { TrackAppend(a[1..], b, true); }
      case TypingStop => if typing { TrackAppend(a[1..], b, false); }
      case SendMessage(_) => TrackAppend(a[1..], b, typing);
    }
  }

  /** One step announces typing changes consistently with the flag: never a
      start while typing, never a stop while idle, and it ends on the new flag. */
  lemma StepTracks(s: InputState, e: UiEvent)
    requires Synced(s) && Enabled(s, e)
    ensures Track(Step(s, e).signals, s.isTyping) == Some(Step(s, e).state.isTyping)
  {
    match e
    case Input(_) =>
    case Timeout =>
      assert Step(s, e).signals == [TypingStop];
    case Send(disabled) =>
      var r := OnSend(s, disabled);
      if |r.signals| == 2 {
        assert r.signals[1..] == [TypingStop];
        assert Track(r.signals[1..], true) == Some(false);
        assert Track(r.signals, true) == Track(r.signals[1..], true);
      } else if |r.signals| == 1 {
        assert r.signals[1..] == [];
        assert Track(r.signals, s.isTyping) == Track(r.signals[1..], s.isTyping);
      }
  }

  /** Every event in order is possible when it happens. */
  predicate Feasible(s: InputState, es: seq<UiEvent>)
    decreases |es|
  {
    |es| == 0 || (Enabled(s, es[0]) && Feasible(Step(s, es[0]).state, es[1..]))
  }

  /** The box's reaction to a series of events: final state and every signal. */
  function Run(s: InputState, es: seq<UiEvent>): Reaction
    requires Feasible(s, es)
    decreases |es|
  {
    if |es| == 0 then Reaction(s, [])
    else
      var first := Step(s, es[0]);
      var rest := Run(first.state, es[1..]);
      Reaction(rest.state, first.signals + rest.signals)
  }

  /** Over any series of events, the start and stop signals strictly
      alternate, starting with a start when idle, and agree with the final
      typing flag; the stop timer stays pending exactly while typing. */
  lemma {:induction false} TypingSignalsAlternate(s: InputState, es: seq<UiEvent>)
    requires Synced(s) && Feasible(s, es)
    ensures Track(Run(s, es).signals, s.isTyping) == Some(Run(s, es).state.isTyping)
    ensures Synced(Run(s, es).state)
    decreases |es|
  {
    if |es| > 0 {
      var first := Step(s, es[0]);
      StepTracks(s, es[0]);
      StepKeepsSynced(s, es[0]);
      TypingSignalsAlternate(first.state, es[1..]);
      TrackAppend(first.signals, Run(first.state, es[1..]).signals, s.isTyping);
    }
  }

  /** From the box's first render, the first typing signal is a start, start
      and stop alternate, and the box is typing at the end exactly when the
      last of them was a start. */
  lemma FromFirstRender(es: seq<UiEvent>)
    requires Feasible(Initial, es)
    ensures Track(Run(Initial, es).signals, false) == Some(Run(Initial, es).state.isTyping)
  {
    TypingSignalsAlternate(Initial, es);
  }
}
