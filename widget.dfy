/**
 * The button widget as a value: its settings, its activation flag and the
 * log of everything it has asked of the host.  Each event handler of the
 * widget is a function from one such value to the next; the class in
 * `ButtonComponent` runs the same handlers as methods on fields.
 *
 * The host's functions are effects appended to the log: `saveState` is
 * `Save`, `advertise`, `publish`, `callService` and `unadvertise` are the
 * entries of the same names.  The messaging functions are optional on the
 * host (`context.advertise?.(…)`); `Capabilities` says which of them exist,
 * and a call to a missing one leaves no entry.
 */
module ButtonWidget {
  import opened Wrappers
  import opened PanelSettings
  import Color

  /** The message type advertised for the button's topic. */
  const BOOL_MESSAGE := "std_msgs/Bool"

  datatype Effect =
    | Save(settings: Settings)
    | Advertise(name: string, schemaName: string)
    | Publish(name: string, data: bool)
    | CallService(name: string, data: bool)
    | Unadvertise(name: string)

  /** Which of the host's optional messaging functions are present. */
  datatype Capabilities = Capabilities(advertise: bool, publish: bool, callService: bool, unadvertise: bool)

  const ALL_CAPABILITIES := Capabilities(true, true, true, true)

  /** What the host's settings editor reports: an edit of the field at `path`, or a node action. */
  datatype Action =
    | Update(path: seq<string>, value: string)
    | PerformNodeAction(id: string, path: seq<string>)

  /** The button element's event props. */
  datatype PointerEvent =
    | OnClick | OnMouseDown | OnMouseUp | OnMouseEnter | OnMouseLeave | OnTouchStart | OnTouchEnd

  datatype Input = Edit(action: Action) | Pointer(event: PointerEvent)

  datatype Widget = Widget(settings: Settings, isActive: bool, log: seq<Effect>)

  /** The widget right after mount: loaded settings, inactive, nothing asked of the host yet. */
  function Mount(saved: Option<Blob>): Widget {
    Widget(Load(saved), false, [])
  }

  // ---------------------------------------------------------------------
  // What the host receives
  // ---------------------------------------------------------------------

  /** The boolean values a log delivers, in order: the data of each publish and service call. */
  function Signals(log: seq<Effect>): seq<bool> {
    if log == [] then [] else Signals(log[..|log| - 1]) + SignalOf(log[|log| - 1])
  }

  function SignalOf(e: Effect): seq<bool> {
    match e
    case Publish(_, data) => [data]
    case CallService(_, data) => [data]
    case _ => []
  }

  lemma {:induction false} SignalsAppend(a: seq<Effect>, b: seq<Effect>)
    ensures Signals(a + b) == Signals(a) + Signals(b)
    decreases |b|
  {
    if b == [] {
      assert a + b == a;
    } else {
      var c := b[..|b| - 1];
      assert (a + b)[..|a + b| - 1] == a + c;
      assert (a + b)[|a + b| - 1] == b[|b| - 1];
      SignalsAppend(a, c);
    }
  }

  lemma SignalsAppendOne(log: seq<Effect>, es: seq<Effect>, x: bool)
    requires Signals(es) == [x]
    ensures Signals(log + es) == Signals(log) + [x]
  {
    SignalsAppend(log, es);
  }

  lemma AppendTwo(signals: seq<bool>, x: bool, y: bool)
    ensures signals + [x] + [y] == signals + [x, y]
  {
  }

  /** Whether an emission with these settings reaches a receiver at all. */
  predicate Delivers(s: Settings, caps: Capabilities) {
    s.name != "" && if s.outputMode == PUBLISHER then caps.publish else caps.callService
  }

  /**
   * `triggerOutput(state)`: nothing without a name; in publisher mode an
   * advertisement of the topic as `std_msgs/Bool` followed by a publish of
   * `{data: state}`; in any other mode a call of the service with
   * `{data: state}`.
   */
  function Emission(s: Settings, caps: Capabilities, state: bool): (es: seq<Effect>)
    ensures s.name == "" ==> es == []
    ensures forall e :: e in es ==>
              e == Advertise(s.name, BOOL_MESSAGE) || e == Publish(s.name, state) || e == CallService(s.name, state)
    ensures s.outputMode == PUBLISHER ==> forall e :: e in es ==> !e.CallService?
    ensures s.outputMode != PUBLISHER ==> forall e :: e in es ==> e.CallService?
    ensures Advertise(s.name, BOOL_MESSAGE) in es <==> s.name != "" && s.outputMode == PUBLISHER && caps.advertise
    ensures Publish(s.name, state) in es <==> s.name != "" && s.outputMode == PUBLISHER && caps.publish
    ensures CallService(s.name, state) in es <==> s.name != "" && s.outputMode != PUBLISHER && caps.callService
    ensures forall i, j :: 0 <= i < j < |es| ==> es[i] != es[j]
    ensures forall i, j :: 0 <= i < |es| && 0 <= j < |es| && es[i].Advertise? && es[j].Publish? ==> i < j
    ensures s.name != "" && s.outputMode == PUBLISHER && caps.advertise && caps.publish ==>
              es == [Advertise(s.name, BOOL_MESSAGE), Publish(s.name, state)]
    ensures s.name != "" && s.outputMode != PUBLISHER && caps.callService ==>
              es == [CallService(s.name, state)]
  {
    if s.outputMode == PUBLISHER then
      if s.name != "" then
        var advertise := if caps.advertise then [Advertise(s.name, BOOL_MESSAGE)] else [];
        var publish := if caps.publish then [Publish(s.name, state)] else [];
        advertise + publish
      else []
    else if s.name != "" then
      if caps.callService then [CallService(s.name, state)] else []
    else []
  }

  /** The receiver gets exactly the value emitted when the settings let it through, and nothing otherwise. */
  lemma EmissionSignals(s: Settings, caps: Capabilities, state: bool)
    ensures Signals(Emission(s, caps, state)) == if Delivers(s, caps) then [state] else []
  {
    if s.outputMode == PUBLISHER && s.name != "" {
      var advertise := if caps.advertise then [Advertise(s.name, BOOL_MESSAGE)] else [];
      var publish := if caps.publish then [Publish(s.name, state)] else [];
      assert Emission(s, caps, state) == advertise + publish;
      SignalsAppend(advertise, publish);
      assert Signals(advertise) == [] by {
        if caps.advertise {
          assert Signals(advertise) == Signals([]) + SignalOf(advertise[0]);
        }
      }
    }
  }

  // ---------------------------------------------------------------------
  // The settings editor's action handler
  // ---------------------------------------------------------------------

  /** `path[path.length - 1]` as a property key: an empty path yields `undefined`, i.e. the key "undefined". */
  function KeyOf(path: seq<string>): string {
    if path == [] then "undefined" else path[|path| - 1]
  }

  /**
   * The action handler: an update writes its value under the key named by
   * the last path element, saves the resulting settings, clears the
   * activation when the key is `buttonMode`, and unadvertises the previous
   * name when `outputMode` is set to "service" (whatever the mode was
   * before).  Any other action changes nothing.
   */
  function EditStep(caps: Capabilities, w: Widget, action: Action): (r: Widget)
    requires WellFormed(w.settings)
    ensures WellFormed(r.settings)
    ensures !action.Update? ==> r == w
    ensures action.Update? ==>
              var key := KeyOf(action.path);
              && Get(r.settings, key) == Some(action.value)
              && (forall k :: k != key ==> Get(r.settings, k) == Get(w.settings, k))
              && r.isActive == (w.isActive && key != BUTTON_MODE)
              && r.log == w.log + [Save(r.settings)] +
                          (if key == OUTPUT_MODE && action.value == SERVICE && caps.unadvertise
                           then [Unadvertise(w.settings.name)] else [])
  {
    match action
    case PerformNodeAction(_, _) => w
    case Update(path, value) =>
      var key := KeyOf(path);
      var next := Set(w.settings, key, value);
      var retract := if key == OUTPUT_MODE && value == SERVICE && caps.unadvertise
                     then [Unadvertise(w.settings.name)] else [];
      Widget(next, if key == BUTTON_MODE then false else w.isActive, w.log + [Save(next)] + retract)
  }

  /** What an edit saves reloads, at the next mount, as exactly the settings it produced. */
  lemma EditSavesReloadable(caps: Capabilities, w: Widget, path: seq<string>, value: string)
    requires WellFormed(w.settings)
    ensures var r := EditStep(caps, w, Update(path, value));
      r.log[|w.log|] == Save(r.settings) && Load(Some(ToBlob(r.settings))) == r.settings
  {
    SaveThenLoad(EditStep(caps, w, Update(path, value)).settings);
  }

  // ---------------------------------------------------------------------
  // The button's handlers
  // ---------------------------------------------------------------------

  /** `handleButtonClick`: in toggle mode flip the activation and emit the new value; otherwise nothing. */
  function ClickStep(caps: Capabilities, w: Widget): (r: Widget)
    ensures r.settings == w.settings
    ensures r.isActive == (w.isActive != (w.settings.buttonMode == TOGGLE))
    ensures r.log == w.log + if w.settings.buttonMode == TOGGLE then Emission(w.settings, caps, r.isActive) else []
  {
    if w.settings.buttonMode == TOGGLE then
      var newState := !w.isActive;
      Widget(w.settings, newState, w.log + Emission(w.settings, caps, newState))
    else w
  }

  /** `handleButtonPress`: in push mode, when inactive, activate and emit true; otherwise nothing. */
  function PressStep(caps: Capabilities, w: Widget): (r: Widget)
    ensures r.settings == w.settings
    ensures r.isActive == (w.isActive || w.settings.buttonMode == PUSH)
    ensures r.log == w.log + if w.settings.buttonMode == PUSH && !w.isActive then Emission(w.settings, caps, true) else []
  {
    if w.settings.buttonMode == PUSH && !w.isActive then
      Widget(w.settings, true, w.log + Emission(w.settings, caps, true))
    else w
  }

  /** `handleButtonRelease`: in push mode, when active, deactivate and emit false; otherwise nothing. */
  function ReleaseStep(caps: Capabilities, w: Widget): (r: Widget)
    ensures r.settings == w.settings
    ensures r.isActive == (w.isActive && w.settings.buttonMode != PUSH)
    ensures r.log == w.log + if w.settings.buttonMode == PUSH && w.isActive then Emission(w.settings, caps, false) else []
  {
    if w.settings.buttonMode == PUSH && w.isActive then
      Widget(w.settings, false, w.log + Emission(w.settings, caps, false))
    else w
  }

  predicate IsPress(e: PointerEvent) {
    e == OnMouseDown || e == OnTouchStart
  }

  predicate IsRelease(e: PointerEvent) {
    e == OnMouseUp || e == OnMouseLeave || e == OnTouchEnd
  }

  /**
   * The event wiring of the button element: click runs the click handler,
   * mouse-down and touch-start the press handler, mouse-up, mouse-leave and
   * touch-end the release handler; mouse-enter only restyles the element.
   */
  function PointerStep(caps: Capabilities, w: Widget, e: PointerEvent): (r: Widget)
    ensures r.settings == w.settings
    ensures r.isActive == w.isActive ==> r.log == w.log
    ensures r.isActive != w.isActive ==> r.log == w.log + Emission(w.settings, caps, r.isActive)
    ensures e == OnClick ==> r == ClickStep(caps, w)
    ensures IsPress(e) ==> r == PressStep(caps, w)
    ensures IsRelease(e) ==> r == ReleaseStep(caps, w)
    ensures e == OnMouseEnter ==> r == w
  {
    match e
    case OnClick => ClickStep(caps, w)
    case OnMouseDown => PressStep(caps, w)
    case OnTouchStart => PressStep(caps, w)
    case OnMouseUp => ReleaseStep(caps, w)
    case OnMouseLeave => ReleaseStep(caps, w)
    case OnTouchEnd => ReleaseStep(caps, w)
    case OnMouseEnter => w
  }

  /** A sequence of pointer events handled one after another. */
  function Run(caps: Capabilities, w: Widget, events: seq<PointerEvent>): (r: Widget)
    ensures r.settings == w.settings
    ensures w.log <= r.log
    decreases |events|
  {
    if events == [] then w else Run(caps, PointerStep(caps, w, events[0]), events[1..])
  }

  /** One input of either kind; the log only ever grows. */
  function Step(caps: Capabilities, w: Widget, input: Input): (r: Widget)
    requires WellFormed(w.settings)
    ensures WellFormed(r.settings)
    ensures w.log <= r.log
  {
    match input
    case Edit(action) => EditStep(caps, w, action)
    case Pointer(e) => PointerStep(caps, w, e)
  }

  lemma SessionThree(caps: Capabilities, w: Widget, a: Input, b: Input, c: Input)
    requires WellFormed(w.settings)
    ensures Session(caps, w, [a, b, c]) == Step(caps, Step(caps, Step(caps, w, a), b), c)
  {
    var w1 := Step(caps, w, a);
    var w2 := Step(caps, w1, b);
    assert [a, b, c][1..] == [b, c];
    assert [b, c][1..] == [c];
    assert Session(caps, w, [a, b, c]) == Session(caps, w1, [b, c]);
    assert Session(caps, w1, [b, c]) == Session(caps, w2, [c]);
    assert Session(caps, w2, [c]) == Session(caps, Step(caps, w2, c), []);
  }

  lemma RunTwo(caps: Capabilities, w: Widget, first: PointerEvent, second: PointerEvent)
    ensures Run(caps, w, [first, second]) == PointerStep(caps, PointerStep(caps, w, first), second)
  {
    var once := PointerStep(caps, w, first);
    assert [first, second][1..] == [second];
    assert Run(caps, w, [first, second]) == Run(caps, once, [second]);
    assert Run(caps, once, [second]) == Run(caps, PointerStep(caps, once, second), []);
  }

  /** Any mix of settings edits and pointer events, one after another. */
  function Session(caps: Capabilities, w: Widget, inputs: seq<Input>): (r: Widget)
    requires WellFormed(w.settings)
    ensures WellFormed(r.settings)
    ensures w.log <= r.log
    decreases |inputs|
  {
    if inputs == [] then w else Session(caps, Step(caps, w, inputs[0]), inputs[1..])
  }

  // ---------------------------------------------------------------------
  // Interaction properties
  // ---------------------------------------------------------------------

  /** In toggle mode two clicks restore the activation and emit the two opposite values. */
  lemma ClickTwiceRestores(caps: Capabilities, w: Widget)
    requires w.settings.buttonMode == TOGGLE
    ensures var r := Run(caps, w, [OnClick, OnClick]);
      && r.isActive == w.isActive && r.settings == w.settings
      && r.log == w.log + Emission(w.settings, caps, !w.isActive) + Emission(w.settings, caps, w.isActive)
      && (Delivers(w.settings, caps) ==> Signals(r.log) == Signals(w.log) + [!w.isActive, w.isActive])
  {
    var once := ClickStep(caps, w);
    var twice := ClickStep(caps, once);
    RunTwo(caps, w, OnClick, OnClick);
    if Delivers(w.settings, caps) {
      EmissionSignals(w.settings, caps, !w.isActive);
      EmissionSignals(w.settings, caps, w.isActive);
      SignalsAppendOne(w.log, Emission(w.settings, caps, !w.isActive), !w.isActive);
      SignalsAppendOne(once.log, Emission(w.settings, caps, w.isActive), w.isActive);
      AppendTwo(Signals(w.log), !w.isActive, w.isActive);
    }
  }

  /**
   * In push mode an inactive button that is pressed (mouse-down or
   * touch-start) and then released (mouse-up, touch-end, or the pointer
   * leaving the button) ends inactive, having emitted true and then false.
   */
  lemma PressThenRelease(caps: Capabilities, w: Widget, press: PointerEvent, release: PointerEvent)
    requires w.settings.buttonMode == PUSH && !w.isActive
    requires IsPress(press) && IsRelease(release)
    ensures var r := Run(caps, w, [press, release]);
      && !r.isActive && r.settings == w.settings
      && r.log == w.log + Emission(w.settings, caps, true) + Emission(w.settings, caps, false)
      && (Delivers(w.settings, caps) ==> Signals(r.log) == Signals(w.log) + [true, false])
  {
    var pressed := PointerStep(caps, w, press);
    assert pressed == PressStep(caps, w);
    assert PointerStep(caps, pressed, release) == ReleaseStep(caps, pressed);
    RunTwo(caps, w, press, release);
    if Delivers(w.settings, caps) {
      EmissionSignals(w.settings, caps, true);
      EmissionSignals(w.settings, caps, false);
      SignalsAppendOne(w.log, Emission(w.settings, caps, true), true);
      SignalsAppendOne(pressed.log, Emission(w.settings, caps, false), false);
      AppendTwo(Signals(w.log), true, false);
    }
  }

  /** With an empty name no pointer input asks anything of the host. */
  lemma {:induction false} SilentWithoutName(caps: Capabilities, w: Widget, events: seq<PointerEvent>)
    requires w.settings.name == ""
    ensures Run(caps, w, events).log == w.log
    decreases |events|
  {
    if events != [] {
      SilentWithoutName(caps, PointerStep(caps, w, events[0]), events[1..]);
    }
  }

  /**
   * The receiver's view agrees with the button: the values delivered so far
   * are true, false, true, … and the button is active exactly when an odd
   * number of them has been delivered, i.e. when the last one was true.
   */
  predicate InSync(signals: seq<bool>, isActive: bool) {
    && (forall i :: 0 <= i < |signals| ==> signals[i] == (i % 2 == 0))
    && isActive == (|signals| % 2 == 1)
  }

  lemma PointerStepKeepsSync(caps: Capabilities, w: Widget, e: PointerEvent)
    requires Delivers(w.settings, caps)
    requires InSync(Signals(w.log), w.isActive)
    ensures var r := PointerStep(caps, w, e); InSync(Signals(r.log), r.isActive)
  {
    var r := PointerStep(caps, w, e);
    if r.isActive != w.isActive {
      EmissionSignals(w.settings, caps, r.isActive);
      SignalsAppend(w.log, Emission(w.settings, caps, r.isActive));
      SyncExtends(Signals(w.log), w.isActive);
    }
  }

  /** In step, the activation is the last value delivered (false before any). */
  lemma InSyncLast(signals: seq<bool>, isActive: bool)
    requires InSync(signals, isActive)
    ensures isActive == (|signals| > 0 && signals[|signals| - 1])
  {
    if |signals| > 0 {
      assert signals[|signals| - 1] == ((|signals| - 1) % 2 == 0);
    }
  }

  lemma SyncExtends(signals: seq<bool>, isActive: bool)
    requires InSync(signals, isActive)
    ensures InSync(signals + [!isActive], !isActive)
  {
    var longer := signals + [!isActive];
    forall i | 0 <= i < |longer| ensures longer[i] == (i % 2 == 0) {
      if i < |signals| {
        assert longer[i] == signals[i];
      }
    }
  }

  /**
   * As long as the settings let emissions through, any sequence of pointer
   * inputs keeps the receiver in step with the button.
   */
  lemma {:induction false} RunKeepsSync(caps: Capabilities, w: Widget, events: seq<PointerEvent>)
    requires Delivers(w.settings, caps)
    requires InSync(Signals(w.log), w.isActive)
    ensures var r := Run(caps, w, events); InSync(Signals(r.log), r.isActive)
    decreases |events|
  {
    if events != [] {
      PointerStepKeepsSync(caps, w, events[0]);
      RunKeepsSync(caps, PointerStep(caps, w, events[0]), events[1..]);
    }
  }

  /** From mount, whatever the pointer does, the receiver sees true, false, true, … in step with the button. */
  lemma MountedRunInSync(caps: Capabilities, saved: Option<Blob>, events: seq<PointerEvent>)
    requires Delivers(Load(saved), caps)
    ensures var r := Run(caps, Mount(saved), events); InSync(Signals(r.log), r.isActive)
  {
    RunKeepsSync(caps, Mount(saved), events);
  }

  // ---------------------------------------------------------------------
  // Log discipline over whole sessions
  // ---------------------------------------------------------------------

  /**
   * Every output names a non-empty target, advertisements use the boolean
   * message type, and when the host can advertise every publish directly
   * follows the advertisement of its topic.
   */
  predicate Disciplined(caps: Capabilities, log: seq<Effect>) {
    forall i :: 0 <= i < |log| ==> EntryDisciplined(caps, log, i)
  }

  predicate EntryDisciplined(caps: Capabilities, log: seq<Effect>, i: nat)
    requires i < |log|
  {
    match log[i]
    case Advertise(n, t) => n != "" && t == BOOL_MESSAGE
    case Publish(n, _) => n != "" && (caps.advertise ==> 0 < i && log[i - 1] == Advertise(n, BOOL_MESSAGE))
    case CallService(n, _) => n != ""
    case _ => true
  }

  lemma DisciplinedAppend(caps: Capabilities, a: seq<Effect>, b: seq<Effect>)
    requires Disciplined(caps, a) && Disciplined(caps, b)
    ensures Disciplined(caps, a + b)
  {
    var ab := a + b;
    forall i | 0 <= i < |ab| ensures EntryDisciplined(caps, ab, i) {
      if i < |a| {
        assert EntryDisciplined(caps, a, i);
      } else {
        assert EntryDisciplined(caps, b, i - |a|);
        assert i - |a| > 0 ==> ab[i - 1] == b[i - |a| - 1];
      }
    }
  }

  lemma EmissionDisciplined(s: Settings, caps: Capabilities, state: bool)
    ensures Disciplined(caps, Emission(s, caps, state))
  {
    var es := Emission(s, caps, state);
    forall i | 0 <= i < |es| ensures EntryDisciplined(caps, es, i) {
      assert es[i] in es;
    }
  }

  lemma StepDisciplined(caps: Capabilities, w: Widget, input: Input)
    requires WellFormed(w.settings)
    requires Disciplined(caps, w.log)
    ensures Disciplined(caps, Step(caps, w, input).log)
  {
    var r := Step(caps, w, input);
    match input
    case Edit(action) =>
      if action.Update? {
        var added := r.log[|w.log|..];
        assert r.log == w.log + added;
        forall i | 0 <= i < |added| ensures EntryDisciplined(caps, added, i) {
        }
        DisciplinedAppend(caps, w.log, added);
      }
    case Pointer(e) =>
      if r.isActive != w.isActive {
        EmissionDisciplined(w.settings, caps, r.isActive);
        DisciplinedAppend(caps, w.log, Emission(w.settings, caps, r.isActive));
      }
  }

  /**
   * Whatever the user edits and clicks, the widget never publishes to, calls
   * or advertises an empty name, and never publishes without advertising the
   * topic right before (when the host can advertise).
   */
  lemma {:induction false} SessionDisciplined(caps: Capabilities, w: Widget, inputs: seq<Input>)
    requires WellFormed(w.settings)
    requires Disciplined(caps, w.log)
    ensures Disciplined(caps, Session(caps, w, inputs).log)
    decreases |inputs|
  {
    if inputs != [] {
      StepDisciplined(caps, w, inputs[0]);
      SessionDisciplined(caps, Step(caps, w, inputs[0]), inputs[1..]);
    }
  }

  // ---------------------------------------------------------------------
  // Appearance
  // ---------------------------------------------------------------------

  /** `isActive ? settings.activeColor : settings.inactiveColor`. */
  function CurrentColor(s: Settings, isActive: bool): string {
    if isActive then s.activeColor else s.inactiveColor
  }

  /** `displayText`. */
  function DisplayText(s: Settings, isActive: bool): string {
    if isActive then s.activeText else s.inactiveText
  }

  /** The parts of the button's style that follow from state: its text and its three colours. */
  datatype Style = Style(text: string, color: string, darkerColor: string, shadow: (int, int, int))

  function StyleOf(s: Settings, isActive: bool): (st: Style)
    requires Color.IsColor(CurrentColor(s, isActive))
    ensures st.text == DisplayText(s, isActive) && st.color == CurrentColor(s, isActive)
    ensures Color.IsColor(st.darkerColor)
    ensures Color.IsChannel(st.shadow.0) && Color.IsChannel(st.shadow.1) && Color.IsChannel(st.shadow.2)
    ensures var n := Color.ParseColor(st.darkerColor);
      && Color.Combine(st.shadow.0, st.shadow.1, st.shadow.2) == Color.ParseColor(st.color)
      && Color.Red(n) == Color.Darken(st.shadow.0)
      && Color.Green(n) == Color.Darken(st.shadow.1)
      && Color.Blue(n) == Color.Darken(st.shadow.2)
  {
    var c := CurrentColor(s, isActive);
    Style(DisplayText(s, isActive), c, Color.DarkerColor(c), Color.ShadowChannels(c))
  }

  /** The button shows its active text and colour exactly when the last value delivered was true. */
  predicate ShowsLastSignal(s: Settings, signals: seq<bool>, isActive: bool) {
    var lastTrue := |signals| > 0 && signals[|signals| - 1];
    DisplayText(s, isActive) == DisplayText(s, lastTrue) && CurrentColor(s, isActive) == CurrentColor(s, lastTrue)
  }

  lemma ShownFollowsLastSignal(s: Settings, signals: seq<bool>, isActive: bool)
    requires InSync(signals, isActive)
    ensures ShowsLastSignal(s, signals, isActive)
  {
    InSyncLast(signals, isActive);
  }

  /**
   * After any pointer input from mount, the button shows its active text and
   * colour exactly when the last value the receiver got was true.
   */
  lemma ShownStateMatchesReceiver(caps: Capabilities, saved: Option<Blob>, events: seq<PointerEvent>)
    requires Delivers(Load(saved), caps)
    ensures var r := Run(caps, Mount(saved), events); ShowsLastSignal(r.settings, Signals(r.log), r.isActive)
  {
    var r := Run(caps, Mount(saved), events);
    MountedRunInSync(caps, saved, events);
    ShownFollowsLastSignal(r.settings, Signals(r.log), r.isActive);
  }

  // ---------------------------------------------------------------------
  // Worked examples
  // ---------------------------------------------------------------------

  /** Publisher "/btn" in toggle mode: one click activates, advertises "/btn" and publishes true. */
  lemma ToggleClickExample()
    ensures var s := DEFAULT_SETTINGS.(name := "/btn");
      var r := Run(ALL_CAPABILITIES, Widget(s, false, []), [OnClick]);
      r.isActive && r.log == [Advertise("/btn", BOOL_MESSAGE), Publish("/btn", true)]
  {
    var s := DEFAULT_SETTINGS.(name := "/btn");
    assert Run(ALL_CAPABILITIES, Widget(s, false, []), [OnClick]) == ClickStep(ALL_CAPABILITIES, Widget(s, false, []));
  }

  /** Service "/svc" in push mode: press then release calls the service with true, then false, and advertises nothing. */
  lemma PushServiceExample()
    ensures var s := DEFAULT_SETTINGS.(outputMode := SERVICE, name := "/svc", buttonMode := PUSH);
      var r := Run(ALL_CAPABILITIES, Widget(s, false, []), [OnMouseDown, OnMouseUp]);
      !r.isActive && r.log == [CallService("/svc", true), CallService("/svc", false)]
  {
    var s := DEFAULT_SETTINGS.(outputMode := SERVICE, name := "/svc", buttonMode := PUSH);
    PressThenRelease(ALL_CAPABILITIES, Widget(s, false, []), OnMouseDown, OnMouseUp);
  }

  /**
   * Unadvertising covers only the name in force when the mode is switched:
   * a topic advertised under an earlier name stays advertised.  Publisher
   * "/a", click, rename to "/b", switch to service: "/a" was advertised, and
   * only "/b" is unadvertised.
   */
  lemma RenamedTopicStaysAdvertised()
    ensures var s := DEFAULT_SETTINGS.(name := "/a");
      var r := Session(ALL_CAPABILITIES, Widget(s, false, []),
                       [Pointer(OnClick), Edit(Update(["general", NAME], "/b")), Edit(Update(["general", OUTPUT_MODE], SERVICE))]);
      Advertise("/a", BOOL_MESSAGE) in r.log && Unadvertise("/a") !in r.log && Unadvertise("/b") in r.log
  {
    var caps := ALL_CAPABILITIES;
    var click, rename, switch := Pointer(OnClick), Edit(Update(["general", NAME], "/b")), Edit(Update(["general", OUTPUT_MODE], SERVICE));
    var w0 := Widget(DEFAULT_SETTINGS.(name := "/a"), false, []);
    var w1 := Step(caps, w0, click);
    assert w1.log == [Advertise("/a", BOOL_MESSAGE), Publish("/a", true)];
    var w2 := Step(caps, w1, rename);
    assert w2.settings.name == "/b" by {
      assert Get(w2.settings, NAME) == Some("/b");
    }
    var w3 := Step(caps, w2, switch);
    assert w3.log == w1.log + [Save(w2.settings), Save(w3.settings), Unadvertise("/b")];
    SessionThree(caps, w0, click, rename, switch);
  }
}
