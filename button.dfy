/**
 * The `Button` component with its hook state as fields: `settings` and
 * `isActive` are the two `useState` values the handlers rewrite, `log` is
 * everything the component has asked of the host so far, and `caps` says
 * which optional messaging functions the host offers.  Each handler is a
 * method whose new state is the matching step function of `ButtonWidget`,
 * so every property proved there holds of the component.
 */
module ButtonComponent {
  import opened Wrappers
  import opened PanelSettings
  import opened ButtonWidget

  class Button {
    const caps: Capabilities
    var settings: Settings
    var isActive: bool
    var log: seq<Effect>

    ghost predicate Valid()
      reads this
    {
      WellFormed(settings)
    }

    /** The component's state as a value. */
    function Snapshot(): Widget
      reads this
    {
      Widget(settings, isActive, log)
    }

    /** Mount: start from the defaults and spread the saved state, if any, over them. */
    constructor (caps: Capabilities, saved: Option<Blob>)
      ensures Valid() && this.caps == caps
      ensures Snapshot() == Mount(saved)
      ensures !isActive && log == []
    {
      this.caps := caps;
      var loaded := DEFAULT_SETTINGS;
      if saved.Some? {
        loaded := Merge(loaded, saved.value);
      }
      settings := loaded;
      isActive := false;
      log := [];
    }

    /** `triggerOutput(state)`. */
    method TriggerOutput(state: bool)
      modifies this`log
      ensures log == old(log) + Emission(settings, caps, state)
    {
      if settings.outputMode == PUBLISHER {
        if settings.name != "" {
          if caps.advertise {
            log := log + [Advertise(settings.name, BOOL_MESSAGE)];
          }
          if caps.publish {
            log := log + [Publish(settings.name, state)];
          }
        }
      } else {
        if settings.name != "" && caps.callService {
          log := log + [CallService(settings.name, state)];
        }
      }
    }

    /** The settings editor's `actionHandler`. */
    method HandleSettingsAction(action: Action)
      requires Valid()
      modifies this
      ensures Valid()
      ensures Snapshot() == EditStep(caps, old(Snapshot()), action)
    {
      if !action.Update? {
        return;
      }
      var key := KeyOf(action.path);
      var value := action.value;
      var prev := settings;
      var newSettings := Set(prev, key, value);
      log := log + [Save(newSettings)];
      if key == BUTTON_MODE {
        isActive := false;
      }
      if key == OUTPUT_MODE && value == SERVICE && caps.unadvertise {
        log := log + [Unadvertise(prev.name)];
      }
      settings := newSettings;
    }

    /** `handleButtonClick`. */
    method HandleButtonClick()
      modifies this`isActive, this`log
      ensures Snapshot() == ClickStep(caps, old(Snapshot()))
    {
      if settings.buttonMode == TOGGLE {
        var newState := !isActive;
        isActive := newState;
        TriggerOutput(newState);
      }
    }

    /** `handleButtonPress`. */
    method HandleButtonPress()
      modifies this`isActive, this`log
      ensures Snapshot() == PressStep(caps, old(Snapshot()))
    {
      if settings.buttonMode == PUSH && !isActive {
        isActive := true;
        TriggerOutput(true);
      }
    }

    /** `handleButtonRelease`. */
    method HandleButtonRelease()
      modifies this`isActive, this`log
      ensures Snapshot() == ReleaseStep(caps, old(Snapshot()))
    {
      if settings.buttonMode == PUSH && isActive {
        isActive := false;
        TriggerOutput(false);
      }
    }

    /** The button element's event props, dispatched to the handlers. */
    method HandlePointerEvent(e: PointerEvent)
      modifies this`isActive, this`log
      ensures Snapshot() == PointerStep(caps, old(Snapshot()), e)
    {
      match e
      case OnClick => HandleButtonClick();
      case OnMouseDown => HandleButtonPress();
      case OnTouchStart => HandleButtonPress();
      case OnMouseUp => HandleButtonRelease();
      case OnMouseLeave => HandleButtonRelease();
      case OnTouchEnd => HandleButtonRelease();
      case OnMouseEnter =>
    }
  }

  /**
   * A short session on the component: in push mode with a service name,
   * press and leave calls the service with true, then false, and ends
   * inactive; then switching to toggle mode saves and stays inactive.
   */
  method PressLeaveThenSwitchMode(saved: Blob) returns (active: bool, mode: string, log: seq<Effect>)
    requires SERVICE == Pick(saved, OUTPUT_MODE, "") && PUSH == Pick(saved, BUTTON_MODE, "")
    requires Pick(saved, NAME, "") == "/svc"
    ensures !active && mode == TOGGLE
    ensures |log| == 3 && log[..2] == [CallService("/svc", true), CallService("/svc", false)]
    ensures log[2].Save? && log[2].settings.buttonMode == TOGGLE && log[2].settings.name == "/svc"
  {
    var b := new Button(ALL_CAPABILITIES, Some(saved));
    assert b.settings.name == "/svc" by {
      assert Get(b.settings, NAME) == Some(saved[NAME]);
    }
    assert b.settings.outputMode == SERVICE && b.settings.buttonMode == PUSH by {
      assert Get(b.settings, OUTPUT_MODE) == Some(saved[OUTPUT_MODE]);
      assert Get(b.settings, BUTTON_MODE) == Some(saved[BUTTON_MODE]);
    }
    b.HandlePointerEvent(OnMouseDown);
    b.HandlePointerEvent(OnMouseLeave);
    assert !b.isActive && b.log == [CallService("/svc", true), CallService("/svc", false)];
    b.HandleSettingsAction(Update(["general", BUTTON_MODE], TOGGLE));
    assert !b.isActive && b.settings.buttonMode == TOGGLE;
    assert b.log[2] == Save(b.settings) && |b.log| == 3;
    assert b.settings.name == "/svc" by {
      assert Get(b.settings, NAME) == Some("/svc");
    }
    active, mode, log := b.isActive, b.settings.buttonMode, b.log;
  }
}
