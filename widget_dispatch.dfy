/**
 * Choosing the widget for an argument (iotools/gui/widget/widget.py,
 * `Widget.from_argument`): a decision list over the argument's choices and
 * class whose first match wins, after which the new widget is bound to
 * the argument.
 */
module WidgetDispatch {
  import opened Python
  import M = MiscValidator
  import CommandArgument
  import Calendar
  import opened WidgetBase

  /**
   * What `from_argument` inspects of an argument: its class (named by its
   * validator kind), its choices, its default, the `widget_magnitude` of
   * the string and date-time arguments, and the kinds of the key and value
   * validators of a dict argument's validator.
   */
  datatype ArgView = ArgView(kind: M.Kind, choices: Option<seq<Value>>, default: Value,
                             magnitude: Option<int>, entryKinds: Option<(M.Kind, M.Kind)>)

  function View(arg: CommandArgument.Argument, magnitude: Option<int>): (a: ArgView)
    reads arg
    ensures a.kind == arg.kind && a.choices == arg.choices && a.default == arg.default && a.magnitude == magnitude
  {
    var entries := match arg.validator.deep
                   case EntriesOf(k, v) => Some((k.kind, v.kind))
                   case _ => None;
    ArgView(arg.kind, arg.choices, arg.default, magnitude, entries)
  }

  /** The argument classes the decision list has a branch for. */
  const Handled: set<M.Kind> := {M.Boolean, M.Integer, M.Float, M.FileKind, M.DirKind, M.DateTime,
                                 M.Date, M.String, M.ListKind, M.Dictionary}

  /** `Maybe(default).else_(False)`. */
  function ElseFalse(v: Value): Value
  {
    if v == NoneV then BoolV(false) else v
  }

  /** The branches after the dict-of-booleans test, in their order. */
  function ByClass(a: ArgView): (r: Result<Widget>)
  {
    if a.kind == M.Boolean then Ok(Checkbox(ElseFalse(a.default)))
    else if a.kind == M.Integer then Ok(IntEntry(a.default))
    else if a.kind == M.Float then Ok(FloatEntry(a.default))
    else if a.kind == M.FileKind then Ok(FileSelect(a.default))
    else if a.kind == M.DirKind then Ok(DirSelect(a.default))
    else if a.kind == M.DateTime then Ok(DateTimeEdit(a.default, a.magnitude))
    else if a.kind == M.Date then Ok(Calendar(a.default))
    else if a.kind == M.String then
      (if a.magnitude.Some? && a.magnitude.value > 1 then Ok(Text(a.default, a.magnitude.value)) else Ok(Entry(a.default)))
    else if a.kind == M.ListKind then Ok(ListWidget(a.default))
    else if a.kind == M.Dictionary then Ok(Tree(a.default))
    else Err(TypeError("Don't know how to handle this argument"))
  }

  /**
   * The decision list as written: for a dict argument the test reads the
   * validator's `deep_type`, which a DictionaryValidator does not have (it
   * keeps `key_type` and `val_type`), so it raises an AttributeError.
   */
  function ChooseAsWritten(a: ArgView): (r: Result<Widget>)
    ensures a.choices.None? && a.kind == M.Dictionary ==> r.Err? && r.error.AttributeError?
  {
    if a.choices.Some? then Ok(DropDown(a.choices.value, a.default))
    else if a.kind == M.Dictionary then Err(AttributeError("'DictionaryValidator' object has no attribute 'deep_type'"))
    else ByClass(a)
  }

  /**
   * The decision list with the dict test reading the key and value types:
   * choices first, a dict of str to bool next, then the argument's class;
   * an argument of any other class is refused with a TypeError.
   */
  function Choose(a: ArgView): (r: Result<Widget>)
    ensures a.choices.Some? ==> r == Ok(DropDown(a.choices.value, a.default))
    ensures r.Err? <==> a.choices.None? && a.kind !in Handled
    ensures r.Err? ==> r.error.TypeError?
    ensures r.Ok? && r.value.CheckBar? <==>
              a.choices.None? && a.kind == M.Dictionary && a.entryKinds == Some((M.String, M.Boolean))
    ensures r.Ok? && r.value.Tree? <==>
              a.choices.None? && a.kind == M.Dictionary && a.entryKinds != Some((M.String, M.Boolean))
    ensures r.Ok? && !r.value.DropDown? ==> a.kind in ArgumentClasses(r.value)
  {
    if a.choices.Some? then Ok(DropDown(a.choices.value, a.default))
    else if a.kind == M.Dictionary && a.entryKinds == Some((M.String, M.Boolean)) then Ok(CheckBar(a.default))
    else ByClass(a)
  }

  /** The two lists differ only on dict arguments without choices. */
  lemma AsWrittenAgrees(a: ArgView)
    ensures a.choices.Some? || a.kind != M.Dictionary ==> ChooseAsWritten(a) == Choose(a)
    ensures a.choices.None? && a.kind == M.Dictionary ==>
              ChooseAsWritten(a).Err? && Choose(a).Ok? && (Choose(a).value.CheckBar? || Choose(a).value.Tree?)
  {
  }

  /**
   * A boolean argument gets a checkbox that is never in the None state: its
   * default, or False when the default is None.
   */
  lemma BooleanCheckbox(a: ArgView)
    requires a.choices.None? && a.kind == M.Boolean
    ensures Choose(a) == Ok(Checkbox(if a.default == NoneV then BoolV(false) else a.default))
    ensures Choose(a).value.state != NoneV
  {
  }

  /** A string argument gets a multi-line text box exactly when its magnitude is above one. */
  lemma StringWidget(a: ArgView)
    requires a.choices.None? && a.kind == M.String
    ensures Choose(a).Ok? && (Choose(a).value.Text? || Choose(a).value.Entry?)
    ensures Choose(a).value.Text? <==> a.magnitude.Some? && a.magnitude.value > 1
  {
  }

  /** A date-time argument's editor shows the format of its magnitude, full precision when none is given. */
  lemma DateTimeFormat(a: ArgView)
    requires a.choices.None? && a.kind == M.DateTime
    ensures Choose(a) == Ok(DateTimeEdit(a.default, a.magnitude))
    ensures a.magnitude.None? ==> Calendar.DisplayFormat(Calendar.Magnitude(Choose(a).value.magnitude)) == "yyyy-MM-dd hh:mm:ss"
  {
    if a.magnitude.None? {
      Calendar.FullFormat(6, a.magnitude);
    }
  }

  /**
   * The new widget accepts the argument it is bound to unless it is a
   * drop-down, which accepts string arguments only: an argument of another
   * class that has choices is refused when it is bound.
   */
  lemma Binds(a: ArgView)
    requires Choose(a).Ok?
    ensures a.kind in ArgumentClasses(Choose(a).value) <==> a.choices.None? || a.kind == M.String
  {
  }

  /**
   * `from_argument`: the chosen widget is built (its Qt widget `qt` is
   * whatever its constructor creates) and bound to the argument with
   * `with_argument`, whose argument setter may refuse it.
   */
  method FromArgument(arg: CommandArgument.Argument, magnitude: Option<int>, qt: nat)
    returns (r: Result<WidgetHandler>)
    ensures var c := Choose(View(arg, magnitude));
            c.Err? ==> r == Err(c.error)
    ensures var c := Choose(View(arg, magnitude));
            c.Ok? && arg.kind in ArgumentClasses(c.value) ==>
              r.Ok? && fresh(r.value) && r.value.built == c.value && r.value.argument == arg
              && r.value.children == [] && r.value.parent == null
    ensures var c := Choose(View(arg, magnitude));
            c.Ok? && arg.kind !in ArgumentClasses(c.value) ==> r.Err? && r.error.TypeError?
  {
    var c := Choose(View(arg, magnitude));
    if c.Err? {
      return Err(c.error);
    }
    var handler := new WidgetHandler(c.value, Some(qt));
    var raised := handler.SetArgument(arg);
    if raised.Some? {
      return Err(raised.value);
    }
    r := Ok(handler);
  }
}
