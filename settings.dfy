/**
 * The button's persisted configuration.
 *
 * In the widget the configuration is a plain JavaScript object: it is loaded
 * by spreading the saved object over the defaults (`{...prev, ...saved}`) and
 * edited by writing one computed key (`{...prev, [key]: value}`).  Neither
 * operation checks that a key is one of the seven declared ones, so the
 * record below carries, besides the seven fields, the map `extra` of any other
 * properties that end up on the object.  `Get` is JavaScript's property
 * lookup on that object and `ToBlob` the object as the host stores it.
 *
 * The two modes stay strings, because the widget compares them as strings:
 * an `outputMode` other than "publisher" takes the service path, and a
 * `buttonMode` that is neither "toggle" nor "push" disables every handler.
 */
module PanelSettings {
  import opened Wrappers

  /** Saved state as the host keeps it: property name to value. */
  type Blob = map<string, string>

  const OUTPUT_MODE := "outputMode"
  const NAME := "name"
  const BUTTON_MODE := "buttonMode"
  const ACTIVE_COLOR := "activeColor"
  const INACTIVE_COLOR := "inactiveColor"
  const ACTIVE_TEXT := "activeText"
  const INACTIVE_TEXT := "inactiveText"

  const FIELD_NAMES: set<string> :=
    {OUTPUT_MODE, NAME, BUTTON_MODE, ACTIVE_COLOR, INACTIVE_COLOR, ACTIVE_TEXT, INACTIVE_TEXT}

  const PUBLISHER := "publisher"
  const SERVICE := "service"
  const TOGGLE := "toggle"
  const PUSH := "push"

  datatype Settings = Settings(
    outputMode: string,
    name: string,
    buttonMode: string,
    activeColor: string,
    inactiveColor: string,
    activeText: string,
    inactiveText: string,
    extra: Blob)

  const DEFAULT_SETTINGS := Settings(PUBLISHER, "/button", TOGGLE, "#10B981", "#EF4444", "", "", map[])

  /** The stray properties never shadow a declared field. */
  predicate WellFormed(s: Settings) {
    forall k :: k in s.extra ==> k !in FIELD_NAMES
  }

  /** `s[key]`: the value of a property, `None` for one the object does not have. */
  function Get(s: Settings, key: string): Option<string> {
    if key == OUTPUT_MODE then Some(s.outputMode)
    else if key == NAME then Some(s.name)
    else if key == BUTTON_MODE then Some(s.buttonMode)
    else if key == ACTIVE_COLOR then Some(s.activeColor)
    else if key == INACTIVE_COLOR then Some(s.inactiveColor)
    else if key == ACTIVE_TEXT then Some(s.activeText)
    else if key == INACTIVE_TEXT then Some(s.inactiveText)
    else if key in s.extra then Some(s.extra[key])
    else None
  }

  /** Two well-formed settings objects with the same properties are the same. */
  lemma {:induction false} GetDetermines(a: Settings, b: Settings)
    requires WellFormed(a) && WellFormed(b)
    requires forall k :: Get(a, k) == Get(b, k)
    ensures a == b
  {
    assert Get(a, OUTPUT_MODE) == Get(b, OUTPUT_MODE);
    assert Get(a, NAME) == Get(b, NAME);
    assert Get(a, BUTTON_MODE) == Get(b, BUTTON_MODE);
    assert Get(a, ACTIVE_COLOR) == Get(b, ACTIVE_COLOR);
    assert Get(a, INACTIVE_COLOR) == Get(b, INACTIVE_COLOR);
    assert Get(a, ACTIVE_TEXT) == Get(b, ACTIVE_TEXT);
    assert Get(a, INACTIVE_TEXT) == Get(b, INACTIVE_TEXT);
    forall k | k in a.extra || k in b.extra
      ensures k in a.extra && k in b.extra && a.extra[k] == b.extra[k]
    {
      assert Get(a, k) == Get(b, k);
    }
    assert a.extra == b.extra;
  }

  /** The object as `saveState` hands it to the host. */
  function ToBlob(s: Settings): (m: Blob)
    requires WellFormed(s)
    ensures m.Keys == FIELD_NAMES + s.extra.Keys
    ensures forall k :: Get(s, k) == if k in m then Some(m[k]) else None
  {
    s.extra + map[
      OUTPUT_MODE := s.outputMode,
      NAME := s.name,
      BUTTON_MODE := s.buttonMode,
      ACTIVE_COLOR := s.activeColor,
      INACTIVE_COLOR := s.inactiveColor,
      ACTIVE_TEXT := s.activeText,
      INACTIVE_TEXT := s.inactiveText]
  }

  function Pick(m: Blob, key: string, otherwise: string): string {
    if key in m then m[key] else otherwise
  }

  /**
   * `{...prev, ...saved}`: every property of `saved` overrides, every other
   * property keeps its value from `prev`.
   */
  function Merge(prev: Settings, saved: Blob): (r: Settings)
    requires WellFormed(prev)
    ensures WellFormed(r)
    ensures forall k :: Get(r, k) == if k in saved then Some(saved[k]) else Get(prev, k)
  {
    Settings(
      Pick(saved, OUTPUT_MODE, prev.outputMode),
      Pick(saved, NAME, prev.name),
      Pick(saved, BUTTON_MODE, prev.buttonMode),
      Pick(saved, ACTIVE_COLOR, prev.activeColor),
      Pick(saved, INACTIVE_COLOR, prev.inactiveColor),
      Pick(saved, ACTIVE_TEXT, prev.activeText),
      Pick(saved, INACTIVE_TEXT, prev.inactiveText),
      prev.extra + map k | k in saved && k !in FIELD_NAMES :: saved[k])
  }

  /**
   * The settings at mount: the defaults, with the host's saved state (when
   * there is one) spread over them.
   */
  function Load(saved: Option<Blob>): (s: Settings)
    ensures WellFormed(s)
    ensures forall k :: k in FIELD_NAMES ==> Get(s, k).Some?
    ensures forall k ::
              Get(s, k) == if saved.Some? && k in saved.value then Some(saved.value[k])
                           else Get(DEFAULT_SETTINGS, k)
  {
    match saved
    case None => DEFAULT_SETTINGS
    case Some(m) => Merge(DEFAULT_SETTINGS, m)
  }

  /** Loading what `saveState` stored gives back the same settings. */
  lemma SaveThenLoad(s: Settings)
    requires WellFormed(s)
    ensures Load(Some(ToBlob(s))) == s
  {
    var r := Load(Some(ToBlob(s)));
    forall k ensures Get(r, k) == Get(s, k) {
      assert k in FIELD_NAMES ==> Get(DEFAULT_SETTINGS, k).Some?;
    }
    GetDetermines(r, s);
  }

  /**
   * `{...prev, [key]: value}`: the property `key` takes `value`, every other
   * property keeps its value.
   */
  function Set(s: Settings, key: string, value: string): (r: Settings)
    requires WellFormed(s)
    ensures WellFormed(r)
    ensures Get(r, key) == Some(value)
    ensures forall k :: k != key ==> Get(r, k) == Get(s, k)
  {
    if key == OUTPUT_MODE then s.(outputMode := value)
    else if key == NAME then s.(name := value)
    else if key == BUTTON_MODE then s.(buttonMode := value)
    else if key == ACTIVE_COLOR then s.(activeColor := value)
    else if key == INACTIVE_COLOR then s.(inactiveColor := value)
    else if key == ACTIVE_TEXT then s.(activeText := value)
    else if key == INACTIVE_TEXT then s.(inactiveText := value)
    else s.(extra := s.extra[key := value])
  }

  /** As the host stores it, an edit is a single-key map update of the saved object. */
  lemma SetIsBlobUpdate(s: Settings, key: string, value: string)
    requires WellFormed(s)
    ensures ToBlob(Set(s, key, value)) == ToBlob(s)[key := value]
  {
    var a, b := ToBlob(Set(s, key, value)), ToBlob(s)[key := value];
    forall k ensures (k in a <==> k in b) && (k in a ==> a[k] == b[k]) {
      assert Get(Set(s, key, value), k) == if k in a then Some(a[k]) else None;
      assert k != key ==> Get(s, k) == if k in ToBlob(s) then Some(ToBlob(s)[k]) else None;
    }
    assert a == b;
  }
}
