// `ImageResizer`: Alt + mouse wheel over an image preview moves the size
// slider of that image's widget by one step, clamped to the slider's range.
// The wheel listener on the document is registered by `enable` and removed by
// `disable`; both are no-ops when repeated.

module ImageResizer {
  import opened Common

  /** `parseFloat(attribute) || fallback`: an attribute that parses to 0 or to NaN
      (`None`) gives the fallback. */
  function Attr(parsed: Option<int>, fallback: int): (r: int)
    ensures r == fallback || (parsed.Some? && r == parsed.value)
    ensures r == 0 ==> fallback == 0
  {
    if parsed.None? || parsed.value == 0 then fallback else parsed.value
  }

  /** `Math.max(lo, Math.min(hi, v))`. */
  function Clamp(v: int, lo: int, hi: int): (r: int)
    ensures lo <= hi ==> lo <= r <= hi
    ensures lo <= v <= hi ==> r == v
    ensures hi < lo ==> r == lo
  {
    var m := if v < hi then v else hi;
    if lo < m then m else lo
  }

  /** The slider value after one wheel notch: one step down when scrolling down
      (`deltaY > 0`), one step up otherwise. */
  function NextValue(current: int, step: int, lo: int, hi: int, deltaY: int): (r: int)
  {
    Clamp(current - (if deltaY > 0 then step else -step), lo, hi)
  }

  /** With a positive step and a value inside the range, scrolling down never raises
      the value and scrolling up never lowers it; the value moves by a full step
      unless that would cross the bound, where it stops at the bound. */
  lemma NextValueMoves(current: int, step: int, lo: int, hi: int, deltaY: int)
    requires 0 < step && lo <= current <= hi
    ensures lo <= NextValue(current, step, lo, hi, deltaY) <= hi
    ensures deltaY > 0 ==> NextValue(current, step, lo, hi, deltaY) == (if current - step < lo then lo else current - step)
    ensures deltaY <= 0 ==> NextValue(current, step, lo, hi, deltaY) == (if current + step > hi then hi else current + step)
    ensures deltaY > 0 ==> NextValue(current, step, lo, hi, deltaY) <= current
    ensures deltaY <= 0 ==> NextValue(current, step, lo, hi, deltaY) >= current
  {
  }

  /** On the widget's own slider (`min = 1`, `max = 5`, no `step`) every notch stays
      within the five sizes. */
  lemma WidgetSliderStaysInSizes(current: int, deltaY: int)
    ensures 1 <= NextValue(current, Attr(None, 1), Attr(Some(1), 1), Attr(Some(5), 5), deltaY) <= 5
  {
  }

  /** A size slider: its value and the parsed `step`, `min` and `max` attributes, and
      how many `input` and `change` events it has been sent. */
  class Slider {
    var value: int
    var step: Option<int>
    var min: Option<int>
    var max: Option<int>
    var inputEvents: nat
    var changeEvents: nat

    constructor(value: int, step: Option<int>, min: Option<int>, max: Option<int>)
      ensures this.value == value && this.step == step && this.min == min && this.max == max
      ensures inputEvents == 0 && changeEvents == 0
    {
      this.value := value;
      this.step := step;
      this.min := min;
      this.max := max;
      inputEvents := 0;
      changeEvents := 0;
    }

    /** The value the next notch sets. */
    function Next(deltaY: int): int
      reads this
    {
      NextValue(value, Attr(step, 1), Attr(min, 1), Attr(max, 5), deltaY)
    }
  }

  /** What the wheel handler reads from a wheel event: the Alt key, whether the target
      lies inside an image preview, and the scroll direction. */
  datatype WheelEvent = WheelEvent(altKey: bool, inPreview: bool, deltaY: int)

  /** `handleScroll`: the default action is prevented when Alt is held over a preview;
      the slider, when the widget has one, moves one notch and is sent an `input` and
      a `change` event (the animation frame is taken as immediate). */
  method HandleScroll(e: WheelEvent, slider: Slider?) returns (prevented: bool)
    modifies slider
    ensures prevented <==> e.altKey && e.inPreview
    ensures prevented && slider != null ==>
              slider.value == old(slider.Next(e.deltaY))
              && slider.inputEvents == old(slider.inputEvents) + 1
              && slider.changeEvents == old(slider.changeEvents) + 1
    ensures !prevented && slider != null ==>
              slider.value == old(slider.value)
              && slider.inputEvents == old(slider.inputEvents)
              && slider.changeEvents == old(slider.changeEvents)
    ensures slider != null ==> slider.step == old(slider.step) && slider.min == old(slider.min) && slider.max == old(slider.max)
  {
    if !e.altKey || !e.inPreview {
      return false;
    }
    prevented := true;
    if slider == null {
      return;
    }
    var step := Attr(slider.step, 1);
    var lo := Attr(slider.min, 1);
    var hi := Attr(slider.max, 5);
    slider.value := Clamp(slider.value - (if e.deltaY > 0 then step else -step), lo, hi);
    slider.inputEvents := slider.inputEvents + 1;
    slider.changeEvents := slider.changeEvents + 1;
  }

  /** The resizer: `enabled` is its flag, `listening` whether its wheel listener is
      registered on the document. */
  class Resizer {
    var enabled: bool
    var listening: bool

    ghost predicate Valid()
      reads this
    {
      enabled == listening
    }

    constructor()
      ensures !enabled && !listening && Valid()
    {
      enabled := false;
      listening := false;
    }

    /** `enable`: a second call changes nothing. */
    method Enable()
      requires Valid()
      modifies this
      ensures enabled && listening && Valid()
      ensures old(enabled) ==> enabled == old(enabled) && listening == old(listening)
    {
      if enabled {
        return;
      }
      enabled := true;
      listening := true;
    }

    /** `disable`: a second call changes nothing. */
    method Disable()
      requires Valid()
      modifies this
      ensures !enabled && !listening && Valid()
      ensures !old(enabled) ==> enabled == old(enabled) && listening == old(listening)
    {
      if !enabled {
        return;
      }
      enabled := false;
      listening := false;
    }

    /** A wheel event on the document reaches the handler only while listening. */
    method Wheel(e: WheelEvent, slider: Slider?) returns (prevented: bool)
      modifies slider
      ensures prevented <==> listening && e.altKey && e.inPreview
      ensures prevented && slider != null ==>
                slider.value == old(slider.Next(e.deltaY))
                && slider.inputEvents == old(slider.inputEvents) + 1
                && slider.changeEvents == old(slider.changeEvents) + 1
      ensures !prevented && slider != null ==>
                slider.value == old(slider.value)
                && slider.inputEvents == old(slider.inputEvents)
                && slider.changeEvents == old(slider.changeEvents)
      ensures slider != null ==> slider.step == old(slider.step) && slider.min == old(slider.min) && slider.max == old(slider.max)
    {
      if listening {
        prevented := HandleScroll(e, slider);
      } else {
        prevented := false;
      }
    }
  }

  /** Enabling twice leaves the same state as enabling once, and disabling after that
      leaves the resizer deaf to the wheel. */
  method EnableTwiceThenDisable(r: Resizer, e: WheelEvent, slider: Slider?) returns (prevented: bool)
    requires r.Valid() && slider != null
    modifies r, slider
    ensures !prevented && slider.value == old(slider.value)
  {
    r.Enable();
    r.Enable();
    r.Disable();
    prevented := r.Wheel(e, slider);
  }
}
