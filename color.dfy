/** The colour vocabulary the picker shares with its colour helpers (`helpers/color`).
    Those helpers are not part of this model: their results are left opaque and
    their behaviour is passed in as function values rather than defined here. */
module Color {

  datatype Option<T> = None | Some(value: T)

  /** Every field of a canonical colour state other than `oldHue`
      (the hsl, hex, rgb and hsv forms and the source tag), left opaque. */
  type ColorFields

  /** Every part of a raw colour description other than its `h` attribute, left opaque. */
  type DescriptionBody

  /** The canonical state `toState` produces. The picker itself reads only `oldHue`,
      the hue retained for grey colours. */
  datatype ColorState = ColorState(oldHue: real, fields: ColorFields)

  /** A raw colour description handed to the picker by a widget or by the caller.
      `h` is its hue attribute, absent for forms that carry none (a hex string, say). */
  datatype Description = Description(h: Option<real>, body: DescriptionBody)

  /** The two helpers the picker imports: `toState(description, fallbackHue)` and
      `simpleCheckForValidColor(description)`. No property of either is assumed. */
  datatype Helpers = Helpers(
    toState: (Description, real) -> ColorState,
    simpleCheckForValidColor: Description -> bool)

  /** JavaScript truthiness of a hue attribute: an absent hue and a hue of 0 are falsy. */
  predicate Truthy(h: Option<real>) {
    h.Some? && h.value != 0.0
  }

  /** The fallback hue `data.h || state.oldHue` that edits and hovers pass to `toState`:
      the description's own hue when it is truthy, the live state's retained hue otherwise. */
  function HueHint(data: Description, live: ColorState): (r: real)
    ensures data.h == None ==> r == live.oldHue
    ensures data.h.Some? && data.h.value != 0.0 ==> r == data.h.value
    ensures data.h == Some(0.0) ==> r == live.oldHue
  {
    if Truthy(data.h) then data.h.value else live.oldHue
  }
}
