/**
 * The widget handler base class (iotools/gui/widget/base.py): every widget
 * handler keeps a parent and a list of children, an optional argument whose
 * value follows the widget's state, and the Qt widget it manages, which is
 * registered once the subclass's constructor has assigned it.
 */
module WidgetBase {
  import opened Python
  import MiscValidator
  import CommandArgument

  /**
   * The concrete widget classes, each with what its constructor was given.
   * `Unbound` stands for the classes without an argument class (frames,
   * group boxes, labels, tab pages, progress bars, HTML displays).
   */
  datatype Widget =
    | DropDown(choices: seq<Value>, state: Value)
    | CheckBar(entries: Value)
    | Checkbox(state: Value)
    | IntEntry(state: Value)
    | FloatEntry(state: Value)
    | FileSelect(state: Value)
    | DirSelect(state: Value)
    | DateTimeEdit(state: Value, magnitude: Option<int>)
    | Calendar(state: Value)
    | Text(state: Value, lines: int)
    | Entry(state: Value)
    | ListWidget(state: Value)
    | Tree(state: Value)
    | Button
    | Unbound(className: string)

  /**
   * `_argument_class` of each widget class, as the argument classes (named
   * by their validator kinds) that `isinstance` accepts. DropDown names
   * StringArgument and an EnumArgument that no argument class is; CheckBar
   * and Tree name the dict argument.
   */
  function ArgumentClasses(w: Widget): (r: set<MiscValidator.Kind>)
    ensures r <= {MiscValidator.String, MiscValidator.Boolean, MiscValidator.Integer, MiscValidator.Float,
                  MiscValidator.Date, MiscValidator.DateTime, MiscValidator.ListKind, MiscValidator.Dictionary,
                  MiscValidator.FileKind, MiscValidator.DirKind}
    ensures w.Unbound? <==> r == {}
  {
    match w
    case DropDown(_, _) => {MiscValidator.String}
    case CheckBar(_) => {MiscValidator.Dictionary}
    case Checkbox(_) => {MiscValidator.Boolean}
    case IntEntry(_) => {MiscValidator.Integer}
    case FloatEntry(_) => {MiscValidator.Float}
    case FileSelect(_) => {MiscValidator.FileKind}
    case DirSelect(_) => {MiscValidator.DirKind}
    case DateTimeEdit(_, _) => {MiscValidator.DateTime}
    case Calendar(_) => {MiscValidator.Date}
    case Text(_, _) => {MiscValidator.String}
    case Entry(_) => {MiscValidator.String}
    case ListWidget(_) => {MiscValidator.ListKind}
    case Tree(_) => {MiscValidator.Dictionary}
    case Button => {MiscValidator.Boolean}
    case Unbound(_) => {}
  }

  /** `_usage_info`: the list and tree widgets explain their keys; every other widget says nothing. */
  function UsageInfo(w: Widget): string
  {
    if w.ListWidget? || w.Tree? then "[Tab] - add new list items\n[Del] - delete the current item" else ""
  }

  /** The `tooltip` setter: the text, a blank line and the usage notes, stripped. */
  function Tooltip(info: string, w: Widget): string
  {
    Strip(info + "\n\n" + UsageInfo(w))
  }

  /** An argument's `info` is used only when it is truthy. */
  predicate Informative(info: Option<string>)
  {
    info.Some? && info.value != ""
  }

  /** Python's `str(val)`: a string is itself, anything else is rendered by `render`. */
  function Str(render: Value -> string, v: Value): (r: string)
    ensures v.StrV? ==> r == v.s
  {
    if v.StrV? then v.s else render(v)
  }

  /** The first position of `x` in `s`. */
  function IndexOf<T(==)>(s: seq<T>, x: T): (i: nat)
    requires x in s
    ensures i < |s| && s[i] == x && x !in s[..i]
  {
    if s[0] == x then 0
    else
      assert s == [s[0]] + s[1..];
      var j := IndexOf(s[1..], x);
      assert s[..j + 1] == [s[0]] + s[1..][..j];
      j + 1
  }

  /** `list.remove(x)` guarded by `x in list`: the first occurrence goes, the rest keep their order. */
  function RemoveFirst<T(==)>(s: seq<T>, x: T): (r: seq<T>)
    ensures x !in s ==> r == s
    ensures x in s ==> r == s[..IndexOf(s, x)] + s[IndexOf(s, x) + 1..]
    ensures x in s ==> multiset(r) == multiset(s) - multiset{x}
  {
    if x !in s then s
    else
      var i := IndexOf(s, x);
      assert s == s[..i] + [x] + s[i + 1..];
      s[..i] + s[i + 1..]
  }

  /** The registry from Qt widgets to their handlers, shared by every handler. */
  class Registry {
    var entries: seq<(nat, WidgetHandler)>

    constructor ()
      ensures entries == []
    {
      entries := [];
    }
  }

  class WidgetHandler {
    const built: Widget
    var widget: Option<nat>                   // the Qt widget, by identity; None until a subclass assigns it
    var children: seq<WidgetHandler>
    var parent: WidgetHandler?
    var argument: CommandArgument.Argument?
    var enabled: bool                         // the Qt widget's `isEnabled()`
    var tooltip: string
    var text: string

    /** `__init__` of the base class and of the subclass: no children, no parent, no argument. */
    constructor (w: Widget, qt: Option<nat>)
      ensures built == w && widget == qt
      ensures children == [] && parent == null && argument == null
      ensures enabled && tooltip == "" && text == ""
    {
      built, widget := w, qt;
      children, parent, argument := [], null, null;
      enabled, tooltip, text := true, "", "";
    }

    /**
     * `__post_init__`, run after the subclass's constructor: a subclass that
     * did not assign a Qt widget is refused with a RuntimeError; otherwise
     * the handler is registered under its widget.
     */
    method PostInit(registry: Registry) returns (raised: Option<Exc>)
      modifies registry
      ensures widget.None? ==> raised == Some(RuntimeError("Must assign a Qt Widget as the handler's widget in its constructor."))
                               && registry.entries == old(registry.entries)
      ensures widget.Some? ==> raised.None? && registry.entries == Set(old(registry.entries), widget.value, this)
      ensures widget.Some? ==> Get(registry.entries, widget.value) == Some(this)
    {
      if widget.None? {
        raised := Some(RuntimeError("Must assign a Qt Widget as the handler's widget in its constructor."));
        return;
      }
      registry.entries := Set(registry.entries, widget.value, this);
      raised := None;
    }

    /**
     * The `argument` setter: an argument of a class the widget does not
     * accept is refused with a TypeError and the binding stays; otherwise
     * the argument is bound and, when its info is truthy, it becomes the
     * tooltip.
     */
    method SetArgument(arg: CommandArgument.Argument) returns (raised: Option<Exc>)
      modifies this
      ensures arg.kind !in ArgumentClasses(built) ==>
                raised.Some? && raised.value.TypeError? && argument == old(argument) && tooltip == old(tooltip)
      ensures arg.kind in ArgumentClasses(built) ==> raised.None? && argument == arg
      ensures arg.kind in ArgumentClasses(built) ==>
                tooltip == if Informative(arg.info) then Tooltip(arg.info.value, built) else old(tooltip)
      ensures widget == old(widget) && children == old(children) && parent == old(parent)
      ensures enabled == old(enabled) && text == old(text)
    {
      if arg.kind !in ArgumentClasses(built) {
        return Some(TypeError("Cannot add an argument of this type to this widget"));
      }
      argument := arg;
      if Informative(arg.info) {
        tooltip := Tooltip(arg.info.value, built);
      }
      raised := None;
    }

    /**
     * The `state` getter. `reading` is what the concrete class's
     * `_get_state` reads off the Qt widget. With an argument bound, the
     * reading is first assigned to the argument's value, whose setter
     * converts it; a conversion that raises propagates and nothing is
     * returned.
     */
    method State(env: MiscValidator.Env, reading: Value) returns (r: Result<Value>)
      requires argument != null ==> argument.Valid()
      modifies argument
      ensures argument == null ==> r == Ok(reading)
      ensures argument != null ==>
                var converted := MiscValidator.Convert(env, old(argument.validator), reading);
                (converted.Ok? ==> r == Ok(reading) && argument.value == converted.value)
                && (converted.Err? ==> r == Err(converted.error) && argument.value == old(argument.value))
      ensures argument != null ==> argument.Valid() && argument.validator == old(argument.validator)
                                   && argument.default == old(argument.default) && argument.aliasSet == old(argument.aliasSet)
    {
      if argument == null {
        return Ok(reading);
      }
      var raised := argument.SetValue(env, reading);
      r := if raised.Some? then Err(raised.value) else Ok(reading);
    }

    /** The `text` setter: the widget shows `str(val)`. */
    method SetText(render: Value -> string, val: Value)
      modifies this
      ensures text == Str(render, val)
      ensures val.StrV? ==> text == val.s
      ensures widget == old(widget) && children == old(children) && parent == old(parent)
      ensures argument == old(argument) && enabled == old(enabled) && tooltip == old(tooltip)
    {
      text := Str(render, val);
    }

    /** `toggle_active`: the widget is enabled exactly when it was disabled. */
    method ToggleActive()
      modifies this
      ensures enabled == !old(enabled)
      ensures widget == old(widget) && children == old(children) && parent == old(parent)
      ensures argument == old(argument) && tooltip == old(tooltip) && text == old(text)
    {
      enabled := !enabled;
    }

    /**
     * `_set_parent_handler`: the handler leaves its old parent's children
     * (the first time it appears there), takes the new parent and is
     * appended to the new parent's children.
     */
    method SetParentHandler(p: WidgetHandler)
      modifies this, p, parent
      ensures parent == p
      ensures p.children == (if old(parent) == p then RemoveFirst(old(p.children), this) else old(p.children)) + [this]
      ensures old(parent) != null && old(parent) != p ==> old(parent).children == RemoveFirst(old(parent.children), this)
      ensures this != p && this != old(parent) ==> children == old(children)
      ensures Attached(this) && p.children[|p.children| - 1] == this
      ensures old(parent) != null && old(parent) != p && this in old(parent.children) ==>
                multiset(old(parent).children)[this] == multiset(old(parent.children))[this] - 1
      ensures widget == old(widget) && argument == old(argument) && enabled == old(enabled)
      ensures tooltip == old(tooltip) && text == old(text)
    {
      var previous := parent;
      if previous != null && this in previous.children {
        previous.children := RemoveFirst(previous.children, this);
      }
      parent := p;
      p.children := p.children + [this];
    }
  }

  /** A handler sits among its parent's children. */
  predicate Attached(w: WidgetHandler)
    reads w, w.parent
  {
    w.parent != null && w in w.parent.children
  }
}
