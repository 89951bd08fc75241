/** The `ColorPicker` component that `ColorWrap` wraps around a presentational
    picker: it derives the live colour state, gates edits and hovers on a validity
    check, keeps an undo/redo history of accepted states and notifies the caller's
    listeners. Listener invocations are recorded in a ghost log. */
module ColorWrap {
  import opened Color
  import History

  /** A caller-supplied callback; only its identity matters here. */
  type Listener

  /** The input event that accompanied an edit or a hover. */
  type Event

  /** The props the component reads: the colour description and the three optional listeners. */
  datatype Props = Props(
    color: Description,
    onChange: Option<Listener>,
    onChangeComplete: Option<Listener>,
    onSwatchHover: Option<Listener>)

  datatype Channel = OnChange | OnChangeComplete | OnSwatchHover

  /** How a listener was reached: called on the spot, or handed to the 100 ms
      trailing-edge debounce that calls it later. */
  datatype Delivery = Direct | Debounced

  /** One invocation (or debounced scheduling) of a listener with a state and an event. */
  datatype Call = Call(
    channel: Channel,
    listener: Listener,
    colors: ColorState,
    event: Option<Event>,
    via: Delivery)

  /** The calls made by `props.x && props.x(colors, event)`: one when the listener is configured, none otherwise. */
  function Deliver(channel: Channel, l: Option<Listener>, colors: ColorState,
                   event: Option<Event>, via: Delivery): (r: seq<Call>)
    ensures |r| == if l.Some? then 1 else 0
    ensures forall c :: c in r ==>
      Some(c.listener) == l && c.channel == channel && c.colors == colors && c.event == event && c.via == via
  {
    match l
    case None => []
    case Some(f) => [Call(channel, f, colors, event, via)]
  }

  /** `getDerivedStateFromProps`: the live state recomputed from the props, keeping
      the current state's retained hue as the fallback. */
  function DerivedStateFromProps(color: Helpers, nextProps: Props, state: ColorState): (r: ColorState)
  {
    color.toState(nextProps.color, state.oldHue)
  }

  /** The derived state depends on the props only through their colour and on the
      previous state only through its retained hue: the listeners and every other
      field of the state play no part. */
  lemma DerivedStateDependsOnColorAndHue(color: Helpers, p: Props, q: Props, s: ColorState, u: ColorState)
    requires p.color == q.color && s.oldHue == u.oldHue
    ensures DerivedStateFromProps(color, p, s) == DerivedStateFromProps(color, q, u)
  {
  }

  class ColorPicker {
    /** The colour helpers the component imports. */
    const color: Helpers
    var props: Props
    /** The live state (`this.state`); `setState` is an immediate assignment here. */
    var state: ColorState
    var colorHistory: seq<ColorState>
    var historyIndex: int
    /** Every listener invocation so far, oldest first. */
    ghost var calls: seq<Call>

    /** The history fields seen as one value. */
    function Timeline(): (t: History.Timeline<ColorState>)
      reads this
    {
      History.Timeline(colorHistory, historyIndex)
    }

    ghost predicate Valid()
      reads this
    {
      History.Valid(Timeline())
    }

    /** The history starts with the initially derived state alone, as its current entry. */
    constructor (color: Helpers, props: Props)
      ensures this.color == color && this.props == props
      ensures state == color.toState(props.color, 0.0)
      ensures colorHistory == [state] && historyIndex == 0
      ensures calls == []
      ensures Valid()
      ensures !History.CanUndo(Timeline()) && !History.CanRedo(Timeline())
    {
      this.color := color;
      this.props := props;
      var initial := color.toState(props.color, 0.0);
      state := initial;
      colorHistory := [initial];
      historyIndex := 0;
      calls := [];
      History.InitialIsValid(initial);
    }

    /** New props arrive and `getDerivedStateFromProps` replaces the live state; the
        history, its cursor and the listeners are left alone. */
    method ReceiveProps(nextProps: Props)
      modifies this`props, this`state
      ensures props == nextProps
      ensures state == color.toState(nextProps.color, old(state).oldHue)
      ensures colorHistory == old(colorHistory) && historyIndex == old(historyIndex)
      ensures calls == old(calls)
    {
      props := nextProps;
      state := DerivedStateFromProps(color, nextProps, state);
    }

    /** An edit from the widget. A rejected description changes nothing and calls no
        listener. An accepted one becomes the live state, schedules `onChangeComplete`
        through the debounce, calls `onChange`, and is committed to the history, after
        which there is nothing left to redo. */
    method HandleChange(data: Description, event: Option<Event>)
      requires Valid()
      modifies this`state, this`colorHistory, this`historyIndex, this`calls
      ensures Valid()
      ensures !color.simpleCheckForValidColor(data) ==>
        state == old(state) && Timeline() == old(Timeline()) && calls == old(calls)
      ensures color.simpleCheckForValidColor(data) ==>
        var colors := color.toState(data, HueHint(data, old(state)));
        && state == colors
        && Timeline() == History.Push(old(Timeline()), colors)
        && calls == old(calls)
                    + Deliver(OnChangeComplete, props.onChangeComplete, colors, event, Debounced)
                    + Deliver(OnChange, props.onChange, colors, event, Direct)
      ensures color.simpleCheckForValidColor(data) ==>
        historyIndex == |colorHistory| - 1 && colorHistory[historyIndex] == state
        && !History.CanRedo(Timeline())
    {
      var isValidColor := color.simpleCheckForValidColor(data);
      if isValidColor {
        var colors := color.toState(data, HueHint(data, state));
        state := colors;
        if props.onChangeComplete.Some? {
          calls := calls + [Call(OnChangeComplete, props.onChangeComplete.value, colors, event, Debounced)];
        }
        if props.onChange.Some? {
          calls := calls + [Call(OnChange, props.onChange.value, colors, event, Direct)];
        }
        UpdateHistory(colors);
      }
    }

    /** A hover over a swatch. A valid description is derived and handed to
        `onSwatchHover` alone; the live state and the history never change. */
    method HandleSwatchHover(data: Description, event: Option<Event>)
      modifies this`calls
      ensures state == old(state) && Timeline() == old(Timeline())
      ensures calls == old(calls) +
        if color.simpleCheckForValidColor(data)
        then Deliver(OnSwatchHover, props.onSwatchHover, color.toState(data, HueHint(data, state)), event, Direct)
        else []
    {
      var isValidColor := color.simpleCheckForValidColor(data);
      if isValidColor {
        var colors := color.toState(data, HueHint(data, state));
        if props.onSwatchHover.Some? {
          calls := calls + [Call(OnSwatchHover, props.onSwatchHover.value, colors, event, Direct)];
        }
      }
    }

    /** Commits `newColor`: the redo tail is cut, the colour appended, and the oldest
        entry shifted out once there are more than 50. In the shifting branch the
        cursor is not assigned, and it already names the new last entry. */
    method UpdateHistory(newColor: ColorState)
      requires Valid()
      modifies this`colorHistory, this`historyIndex
      ensures Valid()
      ensures Timeline() == History.Push(old(Timeline()), newColor)
      ensures historyIndex == |colorHistory| - 1 && colorHistory[historyIndex] == newColor
      ensures |colorHistory| <= History.MaxHistory
    {
      if historyIndex < |colorHistory| - 1 {
        colorHistory := colorHistory[..historyIndex + 1];
      }
      assert colorHistory == old(colorHistory)[..historyIndex + 1];
      colorHistory := colorHistory + [newColor];
      if |colorHistory| > History.MaxHistory {
        colorHistory := colorHistory[1..];
        assert historyIndex == |colorHistory| - 1;
      } else {
        historyIndex := |colorHistory| - 1;
      }
    }

    /** Steps back one entry if there is one: the live state becomes that entry, and
        `onChange` then `onChangeComplete` are called with it directly and no event.
        At the oldest entry it reports false and changes nothing. */
    method Undo() returns (ok: bool)
      requires Valid()
      modifies this`state, this`historyIndex, this`calls
      ensures Valid()
      ensures ok == History.CanUndo(old(Timeline()))
      ensures Timeline() == History.Undo(old(Timeline()))
      ensures colorHistory == old(colorHistory)
      ensures ok ==>
        && historyIndex == old(historyIndex) - 1
        && state == colorHistory[historyIndex]
        && calls == old(calls)
                    + Deliver(OnChange, props.onChange, state, None, Direct)
                    + Deliver(OnChangeComplete, props.onChangeComplete, state, None, Direct)
      ensures !ok ==> historyIndex == old(historyIndex) && state == old(state) && calls == old(calls)
    {
      if historyIndex > 0 {
        historyIndex := historyIndex - 1;
        var previousColor := colorHistory[historyIndex];
        state := previousColor;
        if props.onChange.Some? {
          calls := calls + [Call(OnChange, props.onChange.value, previousColor, None, Direct)];
        }
        if props.onChangeComplete.Some? {
          calls := calls + [Call(OnChangeComplete, props.onChangeComplete.value, previousColor, None, Direct)];
        }
        return true;
      }
      return false;
    }

    /** Steps forward one entry if there is one, notifying like `Undo`. At the newest
        entry it reports false and changes nothing. */
    method Redo() returns (ok: bool)
      requires Valid()
      modifies this`state, this`historyIndex, this`calls
      ensures Valid()
      ensures ok == History.CanRedo(old(Timeline()))
      ensures Timeline() == History.Redo(old(Timeline()))
      ensures colorHistory == old(colorHistory)
      ensures ok ==>
        && historyIndex == old(historyIndex) + 1
        && state == colorHistory[historyIndex]
        && calls == old(calls)
                    + Deliver(OnChange, props.onChange, state, None, Direct)
                    + Deliver(OnChangeComplete, props.onChangeComplete, state, None, Direct)
      ensures !ok ==> historyIndex == old(historyIndex) && state == old(state) && calls == old(calls)
    {
      if historyIndex < |colorHistory| - 1 {
        historyIndex := historyIndex + 1;
        var nextColor := colorHistory[historyIndex];
        state := nextColor;
        if props.onChange.Some? {
          calls := calls + [Call(OnChange, props.onChange.value, nextColor, None, Direct)];
        }
        if props.onChangeComplete.Some? {
          calls := calls + [Call(OnChangeComplete, props.onChangeComplete.value, nextColor, None, Direct)];
        }
        return true;
      }
      return false;
    }
  }

  /** An accepted edit leaves nothing to redo: a `redo` straight after it reports
      false, so the state, the history and the log are those the edit left. */
  method EditThenRedo(p: ColorPicker, data: Description, event: Option<Event>) returns (ok: bool)
    requires p.Valid() && p.color.simpleCheckForValidColor(data)
    modifies p`state, p`colorHistory, p`historyIndex, p`calls
    ensures !ok
    ensures p.Valid()
    ensures var colors := p.color.toState(data, HueHint(data, old(p.state)));
      && p.state == colors
      && p.Timeline() == History.Push(old(p.Timeline()), colors)
      && p.calls == old(p.calls)
                    + Deliver(OnChangeComplete, p.props.onChangeComplete, colors, event, Debounced)
                    + Deliver(OnChange, p.props.onChange, colors, event, Direct)
  {
    p.HandleChange(data, event);
    ok := p.Redo();
  }
}
