# iohandler / iotools core, modelled in Dafny

This project models the core of the `iotools` package (with its older
sibling `iohandler`): a toolkit for declaring the arguments of a
command-line program, validating and converting their values, arranging them
into commands, groups and subcommands, binding them to GUI widgets, and
logging what a script does.

The model follows the package file by file, one Dafny module per core file:

- `MiscValidator`, `IoToolsValidator` and `IoHandlerValidator` are the three
  generations of `Validator` (`iotools/misc/validator.py`,
  `iotools/validator.py`, `iohandler/validator.py`). Each has the pure
  conversion pipeline as functions (pre-processing, the typepy converter,
  choices, conditions in order, item validators of lists and dicts), the
  mutable validator object as a class whose builder methods update its
  state, and the `Validate` type-resolution tables. `Checks` holds the
  condition machinery they share; `Python` holds the small pieces of Python
  semantics the model needs (dicts as ordered key/value lists, `strip`,
  `split`, `join`, `str(int)`).
- `TypeValidation` is `iotools/typevalidator.py`: the handler tables and the
  `validate` / `value` protocol of `TypeValidator`.
- `Aliases` holds the alias rules the argument and handler classes share:
  rendering `-x` / `--name`, sorting by length, and the pool of short-form
  letters.
- `CommandArgument`, `CommandHandlers` and `Hierarchies` are
  `iotools/command/`: the `Argument` object, the command and group handlers
  with their truthiness and pre/post validation, and the `Hierarchy` that
  walks a tree of handlers to find the chosen command and distribute
  namespace and widget values.
- `HandlerArgument` and `ArgHandlers` are `iotools/handler/`; `IOHandlers`
  is `iotools/iohandler.py`.
- `WidgetBase`, `Calendar`, `WidgetDispatch` and `Checkboxes` are the GUI
  widget layer: the state a `WidgetHandler` keeps, the calendar's display
  format, the choice of widget for an argument, and the checkbox and check
  bar state tables.
- `LogBase`, `NestedLogs` and `PrintLogs` are `iotools/log/`: record
  formatting, the indentation levels of the nested log, and the clean-up of
  a printed log file that erases overwritten lines.
- `Scripts` is `iotools/misc/script.py`: which members of a script class
  get wrapped, what the logged call writes, and the final state of a run.
- `Consoles` is `iotools/misc/console.py`: the key-driven choice menus and
  the yes/no prompt.

Everything foreign is a parameter: typepy converters, `eval`, `issubclass`,
`str()` and `repr()` of arbitrary objects, the clock, the user's keystrokes
and the file system. Conditions and callbacks are Dafny function values that
may answer or raise.

## Model

| member | source | states |
|---|---|---|
| Checks.Check | iotools/misc/validator.py:125-127 | the conditions are run in order: all pass exactly when every condition answers true; otherwise the verdict names the first condition that answered false or raised, and every earlier one passed |
| Checks.CheckFrom | iotools/misc/validator.py:125-127 | the same verdict taken from a given position on, given that the earlier conditions passed |
| Checks.AppendedRejects | iotools/misc/validator.py:85-87 | appending a condition that rejects a value makes the whole check reject it, whatever came before |
| Checks.BoundTests | iotools/misc/validator.py:175-194 | `max_len`/`min_len` compare `len(val)` and `max_value`/`min_value` compare the value, as their names say; on the wrong kind of value they raise |
| Checks.MaxLenRejects | iotools/misc/validator.py:175-177 | after `max_len(n)` a string longer than n no longer passes |
| Checks.MinLenRejects | iotools/misc/validator.py:179-181 | after `min_len(n)` a string shorter than n no longer passes |
| Checks.MaxValueRejects | iotools/misc/validator.py:188-190 | after `max_value(b)` an integer above b no longer passes |
| Checks.MinValueRejects | iotools/misc/validator.py:192-194 | after `min_value(b)` an integer below b no longer passes |
| Checks.TryEval | iotools/validator.py:100-107 | a non-string, or a string `eval` cannot evaluate, is left as it is |
| Checks.Values | iotools/misc/validator.py:81 | the choices taken from an Enum are its members' values, in order |
| MiscValidator.PreProcess | iotools/misc/validator.py:134-135 | only the parametrizable classes change a value before conversion |
| MiscValidator.IsValidNone | iotools/misc/validator.py:93-95 | `is_valid(None)` is the nullable flag, for a validator without item validators |
| MiscValidator.IsValidNoneWithDeepTypes | iotools/misc/validator.py:249-257 | as written, a nullable list or dict validator with item validators raises on `is_valid(None)` (see Findings) |
| MiscValidator.IsValidIntended | iotools/misc/validator.py:249-257 | corrected `is_valid`: None answers the nullable flag whatever the item validators; every other value as written |
| MiscValidator.IntendedMatchesConvert | iotools/misc/validator.py:93-106 | the corrected `is_valid` accepts None exactly when `convert(None)` gives None, and every value it accepts converts, with item validators or without |
| MiscValidator.ConvertNone | iotools/misc/validator.py:108-113 | `convert(None)` is None when nullable and a TypeConversionError otherwise |
| MiscValidator.ChoicesBeforeConditions | iotools/misc/validator.py:122-123 | a converted value outside the choices raises ValueError whatever the conditions say |
| MiscValidator.ConditionsInOrder | iotools/misc/validator.py:125-129 | when every condition passes the subtype of the converted value is returned; otherwise the first condition that fails decides: a false answer raises ValueError naming it, an exception propagates |
| MiscValidator.BaseIsValidSound | iotools/misc/validator.py:93-106 | `is_valid` answers True only when `convert` of the pre-processed value succeeds, and never lets ValueError or TypeConversionError escape |
| MiscValidator.IsValidThenConverts | iotools/misc/validator.py:93-106 | when pre-processing is idempotent, `is_valid(v)` implies that `convert(v)` succeeds, for flat validators and for list and dict validators with item validators alike |
| MiscValidator.ConvertItemsMaps | iotools/misc/validator.py:259-263 | item conversion keeps the number and order of the items, each being the item validator's conversion |
| MiscValidator.ConvertItemsFails | iotools/misc/validator.py:259-263 | one item that fails makes the whole list conversion fail |
| MiscValidator.ConvertAllOk | iotools/misc/validator.py:259-263 | when every item converts, the list conversion succeeds |
| MiscValidator.ListConvertMapsItems | iotools/misc/validator.py:259-263 | a list validator with an item validator succeeds exactly when every item converts, and the result is the items converted in place and in order |
| MiscValidator.Fresh | iotools/misc/validator.py:60-64 | a new validator has no choices, no conditions and no item validators, so it is well formed |
| MiscValidator.InferType | iotools/misc/validator.py:449-467 | an instance is returned as is; None gives AnythingValidator; a Validator class is instantiated (bare UnknownTypeValidator is a TypeError); any other type goes through the registry; the nullable flag is passed on |
| MiscValidator.RegistryKind | iotools/misc/validator.py:459-467 | the exact registry key wins; otherwise the first key, in class definition order, that the type subclasses; otherwise UnknownTypeValidator |
| MiscValidator.ExactBeforeSubclass | iotools/misc/validator.py:459-461 | `bool` and `date` resolve by their own registry keys to BooleanValidator and DateValidator |
| MiscValidator.NamedConditions | iotools/misc/validator.py:89-90 | a dict of conditions gives one named condition per entry, in order |
| MiscValidator.Validator.constructor | iotools/misc/validator.py:60-64 | a fresh validator with the given nullable flag |
| MiscValidator.Validator.SetNullable | iotools/misc/validator.py:75-77 | only the nullable flag changes |
| MiscValidator.Validator.SetChoices | iotools/misc/validator.py:79-83 | None clears the choices, an Enum gives its members' values, an iterable is copied; a non-iterable raises TypeError and changes nothing |
| MiscValidator.Validator.AddCondition | iotools/misc/validator.py:85-87 | the condition goes to the end of the list; nothing else changes |
| MiscValidator.Validator.AddConditions | iotools/misc/validator.py:89-91 | a dict appends one named condition per entry, a list its conditions, in order |
| MiscValidator.Validator.MaxLen | iotools/misc/validator.py:175-177 | appends the `len(val) <= length` condition |
| MiscValidator.Validator.MinLen | iotools/misc/validator.py:179-181 | appends the `len(val) >= length` condition |
| MiscValidator.Validator.MaxValue | iotools/misc/validator.py:188-190 | appends the `val <= value` condition |
| MiscValidator.Validator.MinValue | iotools/misc/validator.py:192-194 | appends the `val >= value` condition |
| MiscValidator.Validator.OfType | iotools/misc/validator.py:245-247 | the item validator becomes the nullable validator inferred for the type; when inference raises, nothing changes |
| MiscValidator.Validator.OfTypes | iotools/misc/validator.py:299-303 | key and value validators become the nullable validators inferred for the two types; when the key inference raises nothing changes; when only the value inference raises, the new key validator is already stored, beside the old value validator or none |
| MiscValidator.KeyOnlyConvert | iotools/misc/validator.py:316-320 | a dict validator holding only its key validator (set at lines 290-291) is parametrized: an empty dict converts, a dict with entries raises (TypeError calling the missing value validator once the first key converts), where the flat validator returns the dict |
| MiscValidator.KeyOnlyIsValid | iotools/misc/validator.py:93-106 | asked about a dict with entries whose first key converts, such a validator raises TypeError: the base `is_valid` calls the dict validator's own `convert` (lines 316-320), which calls the missing value validator, and `is_valid` does not catch TypeError; an empty dict is valid |
| MiscValidator.Validator.BaseConvertValue | iotools/misc/validator.py:108-129 | the loop over the conditions computes the conversion pipeline's result |
| MiscValidator.Validator.ConvertValue | iotools/misc/validator.py:259-320 | `convert` dispatched on the class (UnknownTypeValidator's constructor, list items, dict entries, a dict holding only its key validator) computes the model's conversion |
| MiscValidator.Validator.IsValidValue | iotools/misc/validator.py:249-257 | `is_valid` dispatched on the class, asking the item validators about each item, computes the model's answer |
| MiscValidator.ConvertEach | iotools/misc/validator.py:263 | the list comprehension converts the items in order; the first failure propagates |
| MiscValidator.ConvertEachEntry | iotools/misc/validator.py:320 | the dict comprehension converts the key, then the value, then hashes the key on insertion, entry by entry in order; the first failure propagates, and a key converting to a list or dict raises the TypeError `unhashable type` |
| MiscValidator.ConvertEntriesMeaning | iotools/misc/validator.py:320 | the dict comprehension succeeds iff every entry's key and value convert and every converted key is hashable, and the dict it builds holds only hashable keys |
| MiscValidator.UnhashableKeyRaises | iotools/misc/validator.py:320 | when the first entry that does not go through has a key converting to a list or dict and a value that converts, the conversion raises TypeError |
| IoToolsValidator.AnythingCall | iotools/validator.py:110-119 | calling the AnythingValidator instance a dict validator substitutes for a missing dtype keeps every value but None; None, not nullable, is a conversion error |
| IoToolsValidator.TypeKind | iotools/validator.py:344-359 | the class's own table entry wins; otherwise the first table entry, in enum order, the class subclasses; otherwise UnknownTypeValidator |
| IoToolsValidator.Type | iotools/validator.py:344-359 | `Validate.Type` gives a fresh validator (not nullable, lenient, no choices or conditions): of the resolved table entry, of the Validator class itself (bare UnknownTypeValidator is a TypeError), or UnknownTypeValidator around the type |
| IoToolsValidator.IsValidNone | iotools/validator.py:64-66 | `is_valid(None)` is the nullable flag for a validator without dtypes |
| IoToolsValidator.ConvertNone | iotools/validator.py:79-84 | `convert(None)` is None when nullable and a TypeConversionError otherwise |
| IoToolsValidator.ConvertNoneParametrizedList | iotools/validator.py:206-213 | as written, a nullable list validator with a dtype raises TypeError on `convert(None)` (see Findings) |
| IoToolsValidator.ConvertIntended | iotools/validator.py:206-213 | corrected list and dict `convert`: None gives None when nullable and a TypeConversionError otherwise; every other value as written |
| IoToolsValidator.ConvertIntendedMeaning | iotools/validator.py:206-213 | the corrected `convert` treats None as the same validator without dtypes does, passing it through exactly when nullable; a list it converts holds each item converted by the item validator, in order |
| IoToolsValidator.IsValidLetsConversionErrorEscape | iotools/validator.py:64-77 | `is_valid` catches only ValueError: a value whose type check passes but whose conversion fails raises TypeConversionError out of `is_valid` |
| IoToolsValidator.BaseIsValidSound | iotools/validator.py:64-77 | `is_valid` answers True only when `convert` succeeds, and never lets a ValueError escape |
| IoToolsValidator.ChoicesBeforeConditions | iotools/validator.py:91-92 | a converted value outside the choices raises ValueError whatever the conditions say |
| IoToolsValidator.ConditionsInOrder | iotools/validator.py:94-98 | when every condition passes the converted value is returned; otherwise the first condition answering false raises ValueError naming it |
| IoToolsValidator.MissingSideIsAnything | iotools/validator.py:245-253 | a dict validator with only one dtype converts the other side with AnythingValidator, made nullable: None still fails, every other value is kept |
| IoToolsValidator.ConvertItemsMaps | iotools/validator.py:206-213 | item conversion keeps the number and order of the items, each being the item validator's conversion |
| IoToolsValidator.Validator.constructor | iotools/validator.py:39-43 | a fresh validator with the given nullable and strict settings; the list and dict classes, whose `__init__` takes no arguments (lines 183-185, 220-222), only with the defaults |
| IoToolsValidator.Validator.Nullable | iotools/validator.py:48-50 | only the nullable flag changes |
| IoToolsValidator.Validator.SetStrict | iotools/validator.py:52-54 | only the strictness changes, to MAX or MIN |
| IoToolsValidator.Validator.Choices | iotools/validator.py:56-58 | an Enum gives its members' values, an iterable is copied; a non-iterable raises and changes nothing |
| IoToolsValidator.Validator.AddCondition | iotools/validator.py:60-62 | the condition goes to the end of the list |
| IoToolsValidator.Validator.MaxLen | iotools/validator.py:144-146 | appends the `len(val) <= length` condition |
| IoToolsValidator.Validator.MinLen | iotools/validator.py:148-150 | appends the `len(val) >= length` condition |
| IoToolsValidator.Validator.MaxValue | iotools/validator.py:157-159 | appends the `val <= value` condition |
| IoToolsValidator.Validator.MinValue | iotools/validator.py:161-163 | appends the `val >= value` condition |
| IoToolsValidator.Validator.OfType | iotools/validator.py:190-192 | only the list dtype changes |
| IoToolsValidator.Validator.OfTypes | iotools/validator.py:228-230 | only the key and value dtypes change |
| IoToolsValidator.Validator.BaseConvertValue | iotools/validator.py:79-98 | the loop over the conditions computes the conversion pipeline's result |
| IoToolsValidator.Validator.ConvertValue | iotools/validator.py:206-253 | `convert` dispatched on the class, with the item validator built on every call, computes the model's conversion |
| IoToolsValidator.ConvertEach | iotools/validator.py:213 | the list comprehension converts the items in order; the first failure propagates |
| IoToolsValidator.ConvertEachEntry | iotools/validator.py:253 | the dict comprehension converts the key, then the value, then hashes the key on insertion, entry by entry in order; the first failure propagates, and a key converting to a list or dict raises the TypeError `unhashable type` |
| IoToolsValidator.ConvertEntriesMeaning | iotools/validator.py:253 | the dict comprehension succeeds iff every entry's key and value convert and every converted key is hashable, and the dict it builds holds only hashable keys |
| IoToolsValidator.UnhashableKeyRaises | iotools/validator.py:253 | when the first entry that does not go through has a key converting to a list or dict and a value that converts, the conversion raises TypeError |
| IoHandlerValidator.LastMatch | iohandler/validator.py:320-325 | the last table entry satisfying the test, with none after it; None only when no entry does |
| IoHandlerValidator.TypeOf | iohandler/validator.py:309-328 | a Validator class resolves to itself, an instance (or any object no entry fits) to the object itself, and an unhashable object raises TypeError at the table lookup |
| IoHandlerValidator.TypeOfExact | iohandler/validator.py:309-310 | a type with its own table entry resolves to that entry |
| IoHandlerValidator.TypeOfSubclass | iohandler/validator.py:320-325 | without an own entry, the LAST table entry the type subclasses wins (the loop has no break) |
| IoHandlerValidator.TypeOfUnresolved | iohandler/validator.py:328 | a type no entry fits is returned itself rather than a validator |
| IoHandlerValidator.ItemValidator | iohandler/validator.py:172-186 | the item validator is nullable; a dtype that resolves to itself has no `nullable` method, an AttributeError |
| IoHandlerValidator.OrAnything | iohandler/validator.py:210-211 | a missing dtype is replaced by an AnythingValidator instance |
| IoHandlerValidator.IsValidNone | iohandler/validator.py:56-58 | `is_valid(None)` is the nullable flag for every validator without dtypes, list and dict validators included (their overrides at lines 169-170 and 206-207 defer to it) |
| IoHandlerValidator.ConvertNone | iohandler/validator.py:70-75 | `convert(None)` is None when nullable and a TypeConversionError otherwise |
| IoHandlerValidator.ConvertedPassesConditions | iohandler/validator.py:81-86 | a value `convert` returns passes every condition |
| IoHandlerValidator.ConditionsNeverFalse | iohandler/validator.py:64-68 | the condition loop of `is_valid` never answers False: a failing condition makes the inner `convert` raise first |
| IoHandlerValidator.IsValidFalseOnlyOnType | iohandler/validator.py:56-68 | `is_valid` answers False exactly for None when not nullable, or a value the type check refuses |
| IoHandlerValidator.IsValidRaisesOnFailedCondition | iohandler/validator.py:64-68 | as written, a value failing a condition makes `is_valid` raise the ValueError naming the first failing condition (see Findings) |
| IoHandlerValidator.IsValidIntended | iohandler/validator.py:56-68 | corrected `is_valid`: None answers the nullable flag, True implies `convert` succeeds, and no ValueError escapes |
| IoHandlerValidator.IntendedRejectsFailedCondition | iohandler/validator.py:64-68 | the corrected `is_valid` answers False for a value failing a condition |
| IoHandlerValidator.MissingSideIsAnything | iohandler/validator.py:210-211 | the missing side of a dict validator is a nullable AnythingValidator that keeps every value |
| IoHandlerValidator.UnresolvedDtypeRaises | iohandler/validator.py:178-186 | a list dtype that resolves to itself makes `convert` raise AttributeError |
| IoHandlerValidator.ConvertItemsMaps | iohandler/validator.py:178-186 | item conversion keeps the number and order of the items, each being the item validator's conversion |
| IoHandlerValidator.Validator.constructor | iohandler/validator.py:36-39 | a fresh validator with the given nullable and strict settings; the list and dict classes, whose `__init__` takes no arguments (lines 155, 191), only with the defaults |
| IoHandlerValidator.Validator.Nullable | iohandler/validator.py:44-46 | only the nullable flag changes |
| IoHandlerValidator.Validator.SetStrict | iohandler/validator.py:48-50 | only the strictness changes, to MAX or MIN |
| IoHandlerValidator.Validator.AddCondition | iohandler/validator.py:52-54 | the condition goes to the end of the list |
| IoHandlerValidator.Validator.MaxLen | iohandler/validator.py:119-121 | appends the `len(val) <= length` condition |
| IoHandlerValidator.Validator.MinLen | iohandler/validator.py:123-125 | appends the `len(val) >= length` condition |
| IoHandlerValidator.Validator.MaxValue | iohandler/validator.py:131-133 | appends the `val <= value` condition |
| IoHandlerValidator.Validator.MinValue | iohandler/validator.py:135-137 | appends the `val >= value` condition |
| IoHandlerValidator.Validator.OfType | iohandler/validator.py:162-164 | only the list dtype changes |
| IoHandlerValidator.Validator.OfTypes | iohandler/validator.py:199-201 | only the key and value dtypes change |
| IoHandlerValidator.Validator.ConvertValue | iohandler/validator.py:178-225 | `convert` dispatched on the class computes the model's conversion |
| IoHandlerValidator.Validator.BaseIsValidValue | iohandler/validator.py:56-68 | the loop of `is_valid` over the conditions, each applied to `self(value)`, computes the model's answer |
| IoHandlerValidator.BaseConvertOf | iohandler/validator.py:70-86 | the loop over the conditions computes the conversion pipeline's result |
| IoHandlerValidator.ResolveType | iohandler/validator.py:309-328 | the table lookup and the loop that keeps the last subclass match compute `TypeOf` |
| IoHandlerValidator.ConvertEach | iohandler/validator.py:186 | the list comprehension converts the items in order; the first failure propagates |
| IoHandlerValidator.ConvertEachEntry | iohandler/validator.py:225 | the dict comprehension converts the key, then the value, then hashes the key on insertion, entry by entry in order; the first failure propagates, and a key converting to a list or dict raises the TypeError `unhashable type` |
| IoHandlerValidator.ConvertEntriesMeaning | iohandler/validator.py:225 | the dict comprehension succeeds iff every entry's key and value convert and every converted key is hashable, and the dict it builds holds only hashable keys |
| IoHandlerValidator.UnhashableKeyRaises | iohandler/validator.py:225 | when the first entry that does not go through has a key converting to a list or dict and a value that converts, the conversion raises TypeError |
| TypeValidation.HandlerFor | iotools/typevalidator.py:63-71 | the builtin table is consulted first, then the generic table for a typing generic, then the custom table; a type none of them knows has no handler |
| TypeValidation.StrOutcome | iotools/typevalidator.py:124-126 | a string stays as it is and is valid; any other value becomes its `str()` and is valid only when coercing |
| TypeValidation.BoolOutcomeIsBool | iotools/typevalidator.py:106-122 | whatever the bool handler accepts ends up a bool; what it refuses is left untouched |
| TypeValidation.BoolOutcomeIntended | iotools/typevalidator.py:106-122 | corrected bool handler: without coercion only a bool is valid and nothing is changed; with coercion as written |
| TypeValidation.BoolIntendedVersusValidate | iotools/typevalidator.py:55-71 | what `validate` leaves for a bool target differs from the corrected handler exactly when, without coercion, it accepts a value that is not a bool |
| TypeValidation.BoolCoercesWithoutCoerce | iotools/typevalidator.py:109-113 | as written, the string "y" becomes True even with `coerce=False`, where the corrected handler refuses it (see Findings) |
| TypeValidation.OptionalNone | iotools/typevalidator.py:58-61 | with `optional`, None is valid and kept whatever the type |
| TypeValidation.TypeValidator.constructor | iotools/typevalidator.py:14-16 | nothing validated yet: not valid, value None |
| TypeValidation.TypeValidator.Current | iotools/typevalidator.py:48-53 | the `value` property gives the stored value exactly when it is valid, a TypeError otherwise |
| TypeValidation.TypeValidator.CheckBool | iotools/typevalidator.py:106-122 | the statements of `is_bool_or_similar`, taken one after another, leave the value and validity the bool outcome describes |
| TypeValidation.TypeValidator.CheckStr | iotools/typevalidator.py:124-126 | `is_str_or_similar` leaves the value and validity the str outcome describes |
| TypeValidation.TypeValidator.Validate | iotools/typevalidator.py:55-75 | UnknownTypeError is raised exactly for a type without a handler (unless optional and None), after the value is stored and validity cleared; otherwise the handler's outcome is stored |
| TypeValidation.TypeValidator.Call | iotools/typevalidator.py:44-46 | `__call__` raises UnknownTypeError for an unknown type, returns the outcome's value when valid, and raises TypeError otherwise |
| Aliases.RenderShape | iotools/command/argument.py:62 | a one-character name renders as `-` and the name, a longer one as `--` and the name |
| Aliases.RenderInjective | iotools/command/argument.py:62 | two different non-empty names never render to the same flag |
| Aliases.Flags | iotools/command/argument.py:62 | the flags are exactly the renderings of the non-empty names (`if name` drops the empty one) |
| Aliases.RenderNotInFlags | iotools/command/argument.py:62 | a name missing from the list has no flag among the list's flags |
| Aliases.FlagsDistinct | iotools/command/argument.py:62 | distinct names give distinct flags |
| Aliases.Dedup | iotools/command/argument.py:66 | keeping names in a set: no name twice, exactly the names given |
| Aliases.DedupDistinct | iotools/command/argument.py:66 | a list without repeats is kept as it is |
| Aliases.InsertByLen | iotools/command/argument.py:62 | inserting a name after every one no longer than it keeps the list sorted by length and adds exactly that name |
| Aliases.SortByLen | iotools/command/argument.py:62 | `sorted(..., key=len)` is ordered by length and a permutation of its input |
| Aliases.SortByLenMembers | iotools/handler/argument.py:60 | sorting keeps exactly the names it was given |
| Aliases.SortByLenDistinct | iotools/handler/argument.py:60 | sorting a list without repeats gives a list without repeats |
| Aliases.SortedFlags | iotools/command/argument.py:62 | the `aliases` getter: sorted by length, and exactly the flags of the non-empty names |
| Aliases.SortedFlagsDistinct | iotools/command/argument.py:62 | distinct names give distinct sorted flags |
| Aliases.NameSet | iotools/handler/argument.py:60 | the name alone when no aliases are given; otherwise the name and the aliases, each once, sorted by length |
| Aliases.FlagListNames | iotools/handler/argument.py:79 | each flag gives back the name it was rendered from, so distinct names give distinct flags |
| Aliases.ShortPoolLetters | iotools/command/handler.py:69-70 | the pool of short letters is the lower-case alphabet without `h` |
| Aliases.ShortAlias | iotools/command/handler.py:134-140 | the letter handed out is in the pool and is the lower-cased first alphanumeric character of the name still in the pool; None exactly when no such character exists |
| Aliases.TakeShortAlias | iotools/command/handler.py:134-140 | the loop over the name hands out that letter and removes it from the pool |
| Aliases.AllocateDistinct | iotools/command/handler.py:134-140 | letters handed out in turn from one pool all come from it, and none is handed out twice |
| Aliases.NeverH | iotools/command/handler.py:69-70 | `h` is never handed out, so `-h` stays free for help |
| CommandArgument.StoredChoices | iotools/command/argument.py:31 | an Enum class is stored as its members' values in order, a list as it is, None as None |
| CommandArgument.AddedConditions | iotools/command/argument.py:34-35 | a single callable becomes one condition, a dict one named condition per entry in order, a list exactly its conditions in order; no conditions add nothing |
| CommandArgument.ValidatorAsWritten | iotools/command/argument.py:32 | as written, building the validator raises TypeError for every argument class, since no misc validator accepts the keyword `choices` (see Findings) |
| CommandArgument.ArgumentValidator | iotools/command/argument.py:32-35 | the validator is of the argument's class, with its nullable flag, its stored choices and its conditions |
| CommandArgument.FreshProvidedIffNotRequired | iotools/command/argument.py:45-46 | a freshly made argument is truthy exactly when it is not required |
| CommandArgument.StoredValueProvided | iotools/command/argument.py:56-58 | a non-nullable validator never stores None for a value other than None |
| CommandArgument.Argument.constructor | iotools/command/argument.py:25-35 | the aliases are the name with the given aliases as a set; value and default are the default; required iff the default is None and not nullable; the validator as above |
| CommandArgument.Argument.SetValue | iotools/command/argument.py:56-58 | the validator's conversion is stored; when it raises, the exception propagates and nothing changes |
| CommandArgument.Argument.Aliases | iotools/command/argument.py:60-62 | the flags of the non-empty alias names, each once, shortest first, the name's own flag among them |
| CommandArgument.Argument.SetAliases | iotools/command/argument.py:64-66 | the alias set becomes the name and the given names; nothing else changes |
| CommandHandlers.Count | iotools/command/handler.py:155 | `len([*filter(None, ...)])`: the number of truthy members, never more than there are members |
| CommandHandlers.GroupFlags | iotools/command/handler.py:151-157 | the truthiness of each group, in order, each by the group rule |
| CommandHandlers.AtMostOne | iotools/command/handler.py:154-155 | counting at most one truthy member is the same as no two members being truthy together |
| CommandHandlers.NoneTrue | iotools/command/handler.py:175-176 | a count of zero truthy members is the same as `any` being false |
| CommandHandlers.ArgFlags | iotools/command/handler.py:30-31 | the truthiness of each argument, in order |
| CommandHandlers.Members | iotools/command/handler.py:30-31 | `[*self.arguments, *self.groups]` as truthiness: the arguments' first, then the groups' |
| CommandHandlers.PreValidate | iotools/command/handler.py:169-178 | an inclusive group fails exactly when all its members are truthy already, an exclusive one exactly when any member is; a plain handler never fails; the failure is a RuntimeError |
| CommandHandlers.PreValidateAll | iotools/command/handler.py:94-99 | checking groups and subhandlers in turn passes exactly when each one passes |
| CommandHandlers.PreValidatedExclusiveTruthy | iotools/command/handler.py:175-178 | an exclusive group that passes pre-validation starts out truthy |
| CommandHandlers.PreValidatedInclusiveFalsy | iotools/command/handler.py:172-174 | an inclusive group that passes pre-validation starts out falsy: something in it must be provided |
| CommandHandlers.FirstFalsy | iotools/command/handler.py:185-187 | the first argument that is falsy, every earlier one truthy; none when all are truthy |
| CommandHandlers.PostValidate | iotools/command/handler.py:180-194 | a truthy group passes; a falsy exclusive group raises; a falsy inclusive group raises naming its first falsy argument; a plain handler passes |
| CommandHandlers.PostValidateAll | iotools/command/handler.py:101-103 | the loop passes exactly when every handler it checks (only the falsy ones when asked) passes |
| CommandHandlers.FalsySubgroup | iotools/command/handler.py:183-191 | a falsy inclusive group whose arguments are all truthy holds a falsy group |
| CommandHandlers.PostValidateFalsyInclusive | iotools/command/handler.py:189-191 | post-validating such a group comes to post-validating its falsy groups |
| CommandHandlers.PostValidatedTruthy | iotools/command/handler.py:180-194 | a group that passes post-validation is truthy, when it and the groups under it are all inclusive or exclusive |
| CommandHandlers.NearestCommand | iotools/command/handler.py:163-165 | the parent walk ends at the nearest command handler above; a missing parent is an AttributeError |
| CommandHandlers.WalkToCommand | iotools/command/handler.py:163-165 | the `while` loop over parents stops where NearestCommand says: at the nearest command handler above, or with an AttributeError when a parent is missing |
| CommandHandlers.AddAlias | iotools/command/argument.py:66 | adding the short letter to an alias set keeps it free of repeats and adds exactly that name |
| CommandHandlers.Refusal | iotools/command/handler.py:43-50 | `register_name` refuses exactly a name that is not an identifier or is registered already, with a ValueError |
| CommandHandlers.HandlerTree.constructor | iotools/command/handler.py:19-25 | no handlers yet |
| CommandHandlers.HandlerTree.NewCommand | iotools/command/handler.py:60-70 | a new command handler with no names and every letter but `h` available |
| CommandHandlers.HandlerTree.NewGroup | iotools/command/handler.py:144-146 | a new group handler of the given kind |
| CommandHandlers.HandlerTree.RegisterName | iotools/command/handler.py:43-50 | refuses as above and changes nothing, or adds exactly the name to the handler's names |
| CommandHandlers.HandlerTree.DetermineShortformAlias | iotools/command/handler.py:134-140 | hands out the short letter for the name and removes it from this handler's pool; never `h` |
| CommandHandlers.HandlerTree.AddToCommand | iotools/command/handler.py:75-80 | corrected `add_argument`: the name is registered, the argument appended, and the short letter found for it joins the argument's aliases, so its `-x` flag appears |
| CommandHandlers.HandlerTree.AddToCommandAsWritten | iotools/command/handler.py:75-80 | as written: the letter leaves the pool but the argument's aliases are unchanged (see Findings) |
| CommandHandlers.HandlerTree.AddArgument | iotools/command/handler.py:159-167 | a command handler as the corrected AddToCommand (the handler.py:75-80 row under Findings): the argument appended, the letter gone from that handler's pool and added to the argument's alias set, every other handler unchanged; a group registers and appends the argument, then hands it to the nearest command handler the same way, whose refusal or missing parent propagates with only the group changed |
| CommandHandlers.HandlerTree.AddGroup | iotools/command/handler.py:38-41 | the group's name is registered, the group appended, and its parent set to this handler |
| CommandHandlers.HandlerTree.AddSubhandler | iotools/command/handler.py:82-85 | the same for a command handler's subhandlers |
| CommandHandlers.ShortAliasLost | iotools/command/handler.py:79-80 | concretely: for "alpha" the letter `a` is taken, yet as written the argument's flags stay `--alpha` alone, where the corrected method gives `-a` as well |
| Hierarchies.TopDownFrom | iotools/command/hierarchy.py:190-192 | the collected path starts at the root and ends at the node, followed by what was collected before; each node on it is the parent of the next |
| Hierarchies.TopDownShape | iotools/command/hierarchy.py:190-192 | the path from the root runs from node 0 to the node, parent before child, always deeper |
| Hierarchies.TopDownAccumulates | iotools/command/hierarchy.py:190-192 | the recursion with an accumulator is the plain path with the accumulator appended |
| Hierarchies.TopDownChild | iotools/command/hierarchy.py:190-192 | a child's path is its parent's path followed by the child |
| Hierarchies.Matching | iotools/command/hierarchy.py:109 | the children whose names are among the keys, each once and in order: exactly the set `set(children) & set(dict)` |
| Hierarchies.MatchingNone | iotools/command/hierarchy.py:109-111 | when no child is named, no subcommand is found |
| Hierarchies.MatchingOne | iotools/command/hierarchy.py:116-120 | when exactly one child is named, it alone is found |
| Hierarchies.Chosen | iotools/command/hierarchy.py:106-122 | a chosen node lies at or below the start; chosen strictly, it has no children; a node with children is only ever chosen leniently; at a node with children, a value holding a list or a dict raises the TypeError of `set` |
| Hierarchies.DetermineChosenNode | iotools/command/hierarchy.py:106-122 | the loop down from the root chooses exactly the node `Chosen` describes, with its ValueErrors for no subcommand or more than one, the TypeError of an unhashable item and the error of indexing a non-dict |
| Hierarchies.ArgKeys | iotools/command/hierarchy.py:195 | the arguments' names, in order |
| Hierarchies.GetNamespace | iotools/command/hierarchy.py:194-195 | the namespace has no more entries than the node has arguments |
| Hierarchies.GetNamespaceContents | iotools/command/hierarchy.py:194-195 | its keys are exactly the arguments' names, and under each the value of the last argument of that name |
| Hierarchies.Spaces | iotools/command/hierarchy.py:201-202 | the namespaces of the nodes along a path |
| Hierarchies.PathNames | iotools/command/hierarchy.py:201-202 | the handler names along a path |
| Hierarchies.ChosenFromNest | iotools/command/hierarchy.py:197-205 | a namespace nested along a chain of nodes chooses the chain's last node again |
| Hierarchies.ChosenFromOwnNamespace | iotools/command/hierarchy.py:197-205 | the namespace `get_namespace_ascending` reads out at a node chooses that node again in `determine_chosen_node`: leniently always, strictly when it is a leaf |
| Hierarchies.NoChildInNamespace | iotools/command/hierarchy.py:109-111 | a node's own namespace names none of its subcommands |
| Hierarchies.Lookup | iotools/command/hierarchy.py:209-210 | `name in namespace`: a dict answers by key; a string or list only by containing the name; anything else raises TypeError |
| Hierarchies.Snapshot | iotools/command/hierarchy.py:208 | each argument's name and validator, in order |
| Hierarchies.Values | iotools/command/hierarchy.py:208-210 | each argument's value, in order |
| Hierarchies.FirstFailure | iotools/command/hierarchy.py:208-210 | the first argument whose assignment raises, every earlier one succeeding; none exactly when every assignment succeeds |
| Hierarchies.Failure | iotools/command/hierarchy.py:207-210 | `set_values_from_namespace` raises exactly when some assignment raises |
| Hierarchies.NewValues | iotools/command/hierarchy.py:207-210 | up to the first raising argument, every named argument takes its converted value and every other keeps its own; after it nothing changes |
| Hierarchies.SetOwnNamespace | iotools/command/hierarchy.py:194-210 | reading a node's own namespace back in changes nothing, when its validators return each current value unchanged |
| Hierarchies.NewValuesUpTo | iotools/command/hierarchy.py:207-210 | values changed up to a raising turn or the end are `NewValues`, and that turn's exception is the failure |
| Hierarchies.Turns | iotools/command/hierarchy.py:208-210 | the turns leave one value per argument |
| Hierarchies.TurnStep | iotools/command/hierarchy.py:208-210 | a raising turn stops the loop; any other turn sets its value and the loop goes on |
| Hierarchies.TurnsMeaning | iotools/command/hierarchy.py:207-210 | the loop, turn by turn, ends with the first failure and the values `NewValues` describes |
| Hierarchies.TakeValue | iotools/command/hierarchy.py:209-210 | one argument's turn: the value is set through the validator, or left when the name is absent or the validator raises; nothing else about the argument changes |
| Hierarchies.SetValuesFromNamespace | iotools/command/hierarchy.py:207-210 | the loop over a node's arguments ends as the turns describe, and changes no argument's name, aliases or validator |
| Hierarchies.TakeTurn | iotools/command/hierarchy.py:208-210 | turn `i`, stated on all the node's values |
| Hierarchies.Index | iotools/command/hierarchy.py:217 | `namespace[name]`: the value under the name, KeyError without it, TypeError on a non-dict |
| Hierarchies.AllSnaps | iotools/command/hierarchy.py:208 | every node's snapshot |
| Hierarchies.AllValues | iotools/command/hierarchy.py:208-210 | every node's values |
| Hierarchies.Ascending | iotools/command/hierarchy.py:212-218 | the walk leaves one value per argument of every node |
| Hierarchies.Disjoint | iotools/command/hierarchy.py:150 | different nodes share no argument object |
| Hierarchies.SetNodeValues | iotools/command/hierarchy.py:207-210 | one node's loop on the whole hierarchy: that node's values change as `NewValues` says, and every other node is untouched |
| Hierarchies.NodeUpdated | iotools/command/hierarchy.py:207-210 | only one node's values differing from the record means the hierarchy is the record with that node replaced |
| Hierarchies.SetValuesFromNamespaceAscending | iotools/command/hierarchy.py:212-218 | the root takes its values from the namespace, then each node down the path from the namespace under its name; the first exception stops the walk, and the values are those of `Ascending` |
| Hierarchies.SetValuesAlong | iotools/command/hierarchy.py:212-218 | the same walk down any path of nodes |
| Hierarchies.WalkStep | iotools/command/hierarchy.py:216-218 | one node of the walk and the lookup of the next namespace |
| Hierarchies.AscendingTurn | iotools/command/hierarchy.py:212-218 | the walk at one node: a raising node stops it, the last node ends it, a failed lookup raises, otherwise the next node follows |
| Hierarchies.AscendingStep | iotools/command/hierarchy.py:216-218 | a node that takes its values without raising hands the walk on |
| Hierarchies.AscendingKeepsOthers | iotools/command/hierarchy.py:212-218 | the walk changes only the nodes on its path |
| Hierarchies.AscendingFirst | iotools/command/hierarchy.py:212-218 | the first node ends with the values it took, and its exception is the one that gets out |
| Hierarchies.Outcomes | iotools/command/hierarchy.py:265-266 | one widget outcome per argument |
| Hierarchies.WidgetValues | iotools/command/hierarchy.py:265-268 | one value per argument |
| Hierarchies.NodeWarningsNone | iotools/command/hierarchy.py:264-268 | a node gives no warning exactly when every widget value is taken, and at most one per argument |
| Hierarchies.NodeWarningsStep | iotools/command/hierarchy.py:264-268 | one more argument adds its own warning, if any |
| Hierarchies.DottedJoin | iotools/command/hierarchy.py:263 | with non-empty handler names the prefix is the names joined by dots |
| Hierarchies.AllOutcomes | iotools/command/hierarchy.py:264-266 | outcomes shaped like the arguments |
| Hierarchies.WidgetsApplied | iotools/command/hierarchy.py:262-268 | one value per argument of every node |
| Hierarchies.PathWarningsNone | iotools/command/hierarchy.py:260-270 | the walk gives no warning exactly when every widget value on the path is taken |
| Hierarchies.WidgetsAppliedMeaning | iotools/command/hierarchy.py:260-270 | on a path visiting each node once, a node on it ends with its widget values and every other node keeps its values |
| Hierarchies.TakeWidgetValue | iotools/command/hierarchy.py:265-268 | one argument's widget value: taken through the validator, or the value kept; an exception `except Exception` catches becomes a warning `WARNING [prefix] (name) - message`, and KeyboardInterrupt or SystemExit is raised with no warning |
| Hierarchies.WidgetTurnsRaise | iotools/command/hierarchy.py:264-268 | the inner loop raises exactly when some widget value escapes `except Exception`, and then raises the first one, leaving that argument and those after it unchanged |
| Hierarchies.WidgetTurnsMeaning | iotools/command/hierarchy.py:264-268 | when nothing escapes, the inner loop raises nothing and ends with the warnings and values described per argument |
| Hierarchies.SetValuesFromWidgets | iotools/command/hierarchy.py:264-268 | the inner loop on a node's arguments, as `WidgetTurns` describes, stopping at what escapes `except Exception`, changing nothing but values |
| Hierarchies.WidgetTurn | iotools/command/hierarchy.py:265-268 | turn `i` of the inner loop, on all the node's values: it ends the loop, raised, or hands it on |
| Hierarchies.SetNodeFromWidgets | iotools/command/hierarchy.py:264-268 | the inner loop on one node of the hierarchy, no other node touched; when nothing escapes, no exception, the node's warnings and its widget values |
| Hierarchies.WidgetsFromRaise | iotools/command/hierarchy.py:260-270 | the walk raises exactly when a widget value on the path escapes `except Exception`, and what it raises is KeyboardInterrupt or SystemExit |
| Hierarchies.WidgetsFromMeaning | iotools/command/hierarchy.py:260-270 | when nothing on the path escapes, the walk node by node raises nothing and ends with the described warnings and values |
| Hierarchies.PathStep | iotools/command/hierarchy.py:262-268 | one more node: its dotted prefix, its warnings and its values |
| Hierarchies.WidgetsFromStart | iotools/command/hierarchy.py:260-270 | from the root with nothing escaping, nothing raises and each warning is tagged with the dotted prefix up to its node |
| Hierarchies.SetValuesFromWidgetsAscending | iotools/command/hierarchy.py:260-270 | from the root down to the node every argument takes its widget value and every refusal `except Exception` catches becomes a warning; the walk raises exactly when some widget value escapes, and then only KeyboardInterrupt or SystemExit, keeping the values taken before |
| Hierarchies.SetValuesFromWidgetsAlong | iotools/command/hierarchy.py:260-270 | the same walk down any path |
| Hierarchies.WidgetsStep | iotools/command/hierarchy.py:262-268 | one node of the walk: its prefix extended by its name, then its widgets read; what it raises ends the walk |
| Hierarchies.UpdateGet | iotools/command/hierarchy.py:52 | after the in-place union of `d` with `other`, a key of `other` holds its value there and any other key keeps its value |
| Hierarchies.CollectArgumentsAsWritten | iotools/command/hierarchy.py:41-56 | as written: two or more positionals raise ValueError, one neither None nor a dict raises TypeError, a dict sharing keys with the keywords or not of exactly two entries raises ValueError; a two-entry dict stores its second key under its first (see Findings) |
| Hierarchies.CollectArguments | iotools/command/hierarchy.py:37-56 | more than one positional raises ValueError; one that is neither None nor a dict raises TypeError; a dict overlapping the keywords raises ValueError; otherwise the keywords run, with the dict merged, and an explicit None is remembered |
| Hierarchies.MergedArguments | iotools/command/hierarchy.py:48-52 | with the dict merged, every keyword given either way is there with its value, and no other |
| Hierarchies.PositionalDictRefused | iotools/command/hierarchy.py:52 | as written, a one-key dict passed positionally is refused with a ValueError, and a two-key dict stores its second key under its first (see Findings) |
| Hierarchies.ChooseStrategy | iotools/command/hierarchy.py:58-71 | SMART mode runs programmatically on an explicit None, any keyword or an interactive interpreter, otherwise as a GUI exactly when there are no command-line arguments; each other mode maps to its own strategy |
| Hierarchies.ProgrammaticLeaf | iotools/command/hierarchy.py:85-91 | a programmatic run ends at a leaf, changes nothing when it raises choosing or has no arguments, and passes the choice's error on |
| Hierarchies.RunProgrammaticallyMethod | iotools/command/hierarchy.py:85-91 | `run_programatically` chooses strictly, then sets the values along the path from the dict |
| HandlerArgument.ConditionsAsWritten | iotools/handler/argument.py:33-34 | as written, no conditions are added when none are given and a callable is added alone; a non-empty list or dict goes whole to `add_condition`, whose `Condition` reads the missing `__name__` (iotools/misc/validator.py:30-32, 42-43), so building the argument raises AttributeError (see Findings) |
| HandlerArgument.ConditionListCalled | iotools/handler/argument.py:33-34 | as written, conditions given as a list of one condition make the construction raise AttributeError; with the corrected rule of `CommandArgument.AddedConditions` a value that condition accepts passes |
| HandlerArgument.RequiredFor | iotools/handler/argument.py:28 | an explicit `required` wins; otherwise an argument is required exactly when its default is None and it is not nullable |
| HandlerArgument.Argument.Aliases | iotools/handler/argument.py:58-60 | the name is always among the aliases |
| HandlerArgument.Argument.constructor | iotools/handler/argument.py:23-36 | the fields as given, the value starting at the default, `required` as above, Enum choices stored as their values, and the validator of the argument's kind with its nullability, choices and the conditions added by the corrected rule of `CommandArgument.AddedConditions`, not the one line 34 applies |
| HandlerArgument.Argument.SetDefault | iotools/handler/argument.py:70-75 | the default is replaced, and the value too while it is still None; nothing else changes |
| HandlerArgument.Argument.SetValue | iotools/handler/argument.py:54-56 | the validator's conversion is stored; when it raises, the value is kept and the exception propagates |
| HandlerArgument.Argument.SetAliases | iotools/handler/argument.py:62-64 | the aliases become the name together with the given names |
| HandlerArgument.Argument.CommandlineAliases | iotools/handler/argument.py:77-79 | the flags of the aliases, computed once and then served from the cache unchanged |
| HandlerArgument.Argument.Str | iotools/handler/argument.py:43-44 | stringifying a plain argument always raises TypeError |
| HandlerArgument.CommandlineFlags | iotools/handler/argument.py:77-79 | the flags are distinct, each gives its alias back, and the name's own flag is among them |
| ArgHandlers.ArgHandler.Names | iotools/handler/arghandler.py:111 | one name per argument and per subhandler |
| ArgHandlers.ArgHandler.constructor | iotools/handler/arghandler.py:28-38 | no arguments, no subhandlers, and every lower-case letter but `h` in the pool |
| ArgHandlers.ArgHandler.Refusal | iotools/handler/arghandler.py:107-112 | `validate_name` refuses exactly a name that is not an identifier or is attached already, with a ValueError |
| ArgHandlers.ArgHandler.DetermineShortformAlias | iotools/handler/arghandler.py:99-105 | the first alphanumeric character of the name, lower-cased, still in the pool, which leaves the pool; none when there is no such character; never `h` |
| ArgHandlers.ArgHandler.AddArgument | iotools/handler/arghandler.py:43-54 | a refused name raises and changes nothing; otherwise the argument is appended, the letter leaves the pool and joins the argument's aliases sorted by length, and its value, default and validator stay |
| ArgHandlers.ArgHandler.AddSubhandler | iotools/handler/arghandler.py:56-62 | a refused name raises and changes nothing; otherwise the subhandler is appended, its parent set, and it is returned |
| ArgHandlers.NamesOf | iotools/handler/arghandler.py:111 | the names of the arguments or subhandlers, one per item, in order |
| ArgHandlers.NameAdded | iotools/handler/arghandler.py:107-112 | a name that passes `validate_name` keeps the names distinct identifiers wherever it is inserted |
| IOHandlers.ProcessRoute | iotools/iohandler.py:82-99 | a mode other than SMART names its route; in SMART mode a subcommand or arguments select the programmatic run, and otherwise the GUI runs exactly when the command line has no arguments |
| IOHandlers.Optional | iotools/iohandler.py:191 | an explicit `optional` wins; otherwise an argument is optional exactly when it has a default or is nullable |
| IOHandlers.OptionalIsNotRequired | iotools/iohandler.py:191 | the derived `optional` is the negation of the command package's derived `required` |
| IOHandlers.ArgTypeAsWritten | iotools/iohandler.py:194 | as written, building the validator raises TypeError for every type, because no validator class of iotools/validator.py takes the keyword `choices` (see Findings) |
| IOHandlers.ConditionStoredAsWritten | iotools/iohandler.py:195-196 | were line 194 to build the validator, it would have the argument's nullability and choices but no condition, because `convert` never reads the attribute the condition is stored in |
| IOHandlers.ArgType | iotools/iohandler.py:194-196 | the validator as intended: the validator of the type with the argument's nullability and choices set on it and the condition among those `convert` checks |
| IOHandlers.ConditionIgnored | iotools/iohandler.py:195-196 | past line 194, a value the condition refuses would be accepted as written; with the condition in place it is refused with a ValueError |
| IOHandlers.Converting | iotools/iohandler.py:209-211 | the converter arguments use is the iotools validator's `convert` |
| IOHandlers.HandlerStack.constructor | iotools/iohandler.py:47 | the class-wide stack starts empty |
| IOHandlers.Pop | iotools/iohandler.py:73-74 | `stack.pop()` removes the last entry, and raises IndexError on an empty stack |
| IOHandlers.NestedBlocks | iotools/iohandler.py:69-74 | nested `with` blocks leave the stack as they found it |
| IOHandlers.Argument.constructor | iotools/iohandler.py:184-196 | the value starts as the default, the aliases are the name set, Enum choices become their values, `optional` is derived, and the validator is the corrected one of `IOHandlers.ArgType`, carrying the condition, where line 194 as written raises TypeError |
| IOHandlers.Argument.SetValue | iotools/iohandler.py:209-211 | the validator's conversion is stored; when it raises, the value is kept and the exception propagates |
| IOHandlers.Argument.SetAliases | iotools/iohandler.py:217-219 | the aliases become the name together with the given names, sorted by length, each once |
| IOHandlers.Argument.CommandlineAliases | iotools/iohandler.py:221-223 | the flags of the aliases, computed once and then served from the cache |
| IOHandlers.Argument.Add | iotools/iohandler.py:225-227 | the argument is added to the handler on top of the stack as `_add_argument` does: a refusal raises and changes nothing; otherwise it is stored under its name, the letter leaves the top handler's pool and joins its aliases, its value and type stay; only the top handler and the argument change; an empty stack raises IndexError |
| IOHandlers.IOHandler.constructor | iotools/iohandler.py:49-58 | no arguments, no subcommands, and every letter but `h` in the pool |
| IOHandlers.IOHandler.Enter | iotools/iohandler.py:69-71 | the handler is pushed on the stack |
| IOHandlers.IOHandler.Exit | iotools/iohandler.py:73-74 | the stack is popped |
| IOHandlers.IOHandler.AddSubcommand | iotools/iohandler.py:76-80 | a fresh handler with this one's application name, description and mode, stored under its name, replacing any earlier one and leaving the others |
| IOHandlers.IOHandler.Refusal | iotools/iohandler.py:176-178 | a name already attached as an argument is refused with a NameError |
| IOHandlers.IOHandler.DetermineShortformAlias | iotools/iohandler.py:168-174 | the first alphanumeric character of the name, lower-cased, still in the pool, which leaves the pool; never `h` |
| IOHandlers.IOHandler.AddArgument | iotools/iohandler.py:120-129 | a refused name raises and changes nothing; otherwise the argument is stored under its name, and the letter leaves the pool and joins its aliases |
| IOHandlers.StoredNew | iotools/iohandler.py:129 | storing under a new name appends the entry and keeps each argument under its own name |
| IOHandlers.Namespace | iotools/iohandler.py:136 | each argument's name with its current value, in order |
| IOHandlers.RunProgrammaticallyAsWritten | iotools/iohandler.py:131-136 | as written, any arguments raise AttributeError, since `_set_arguments_from_namespace` is defined nowhere; without arguments the handler's namespace is returned (see Findings) |
| IOHandlers.Outcomes | iotools/iohandler.py:134 | one outcome per argument |
| IOHandlers.OutcomeAt | iotools/iohandler.py:134 | an argument named in the dict gets the conversion of the dict's value; any other argument gets nothing |
| IOHandlers.FirstRefused | iotools/iohandler.py:134 | the first argument whose conversion raises, every earlier named argument converting |
| IOHandlers.WalkMeaning | iotools/iohandler.py:134 | the assignments up to the first refusal take effect, later ones do not, and the refusal's exception gets out |
| IOHandlers.AssignFrom | iotools/iohandler.py:134 | one value per argument |
| IOHandlers.UnrelatedNamespace | iotools/iohandler.py:134 | a dict naming none of the arguments changes nothing and raises nothing |
| IOHandlers.Snapshot | iotools/iohandler.py:134 | each argument's name and validator |
| IOHandlers.DistinctObjects | iotools/iohandler.py:129 | arguments stored under different names are different objects |
| IOHandlers.SetArgumentsFromNamespace | iotools/iohandler.py:134 | each argument the dict names is set through its validator, in order; the first exception stops the loop; validators are unchanged |
| IOHandlers.AssignOne | iotools/iohandler.py:134 | one argument's assignment |
| IOHandlers.Values | iotools/iohandler.py:136 | each argument's value |
| IOHandlers.RunProgrammatically | iotools/iohandler.py:131-136 | the corrected run: the subcommand or this handler takes its values from the arguments as `AssignFrom` says, and returns its namespace, or the first exception |
| WidgetBase.ArgumentClasses | iotools/gui/widget/base.py:21 | the argument classes a widget accepts are among the command package's argument kinds, and only the unbound base accepts none |
| WidgetBase.Str | iotools/gui/widget/base.py:72-74 | `str(val)` of a string is the string itself |
| WidgetBase.IndexOf | iotools/gui/widget/base.py:159-160 | the first position of an element present |
| WidgetBase.RemoveFirst | iotools/gui/widget/base.py:159-160 | `list.remove`: the first occurrence goes and nothing else changes; a missing element changes nothing |
| WidgetBase.Registry.constructor | iotools/gui/widget/base.py:20 | the class-wide registry starts empty |
| WidgetBase.WidgetHandler.constructor | iotools/gui/widget/base.py:23-30 | no children, no parent, no argument, the given Qt widget (or none) |
| WidgetBase.WidgetHandler.PostInit | iotools/gui/widget/base.py:32-37 | a handler without a Qt widget raises RuntimeError and registers nothing; otherwise the registry maps its widget to it |
| WidgetBase.WidgetHandler.SetArgument | iotools/gui/widget/base.py:107-115 | an argument of a class the widget does not accept raises TypeError and changes nothing; otherwise it is bound, and a truthy `info` becomes the tooltip, stripped and followed by the usage text |
| WidgetBase.WidgetHandler.State | iotools/gui/widget/base.py:54-61 | without an argument the reading is returned; with one, the reading goes through the argument's validator into its value and is returned, and a refusal propagates leaving the value |
| WidgetBase.WidgetHandler.SetText | iotools/gui/widget/base.py:72-74 | the text shown is `str` of the value |
| WidgetBase.WidgetHandler.ToggleActive | iotools/gui/widget/base.py:129-130 | the enabled flag flips and nothing else changes |
| WidgetBase.WidgetHandler.SetParentHandler | iotools/gui/widget/base.py:158-163 | the handler leaves its old parent's children once, joins the end of the new parent's, and records the new parent |
| Calendar.Magnitude | iotools/gui/widget/calendar.py:44 | `magnitude or 6`: no magnitude or 0 gives 6, any other is kept |
| Calendar.DisplayFormat | iotools/gui/widget/calendar.py:48 | the format always starts with the year |
| Calendar.PartsInOrder | iotools/gui/widget/calendar.py:48 | the format is built from its parts in order |
| Calendar.FormatComponents | iotools/gui/widget/calendar.py:48 | the year, then month, day, hour, minute and second, each shown exactly when the magnitude reaches its rank |
| Calendar.ShownPrefix | iotools/gui/widget/calendar.py:48 | raising the magnitude only adds components at the end |
| Calendar.FormatPrefix | iotools/gui/widget/calendar.py:48 | each format is a prefix of the next magnitude's |
| Calendar.FullFormat | iotools/gui/widget/calendar.py:44-48 | a magnitude of 6 or more, and the default, show the full `yyyy-MM-dd hh:mm:ss` |
| WidgetDispatch.View | iotools/gui/widget/widget.py:61-89 | what the decision list reads of an argument: its class, choices, default and magnitude |
| WidgetDispatch.ChooseAsWritten | iotools/gui/widget/widget.py:64 | as written, a dict argument without choices raises AttributeError, since its validator has no `deep_type` (see Findings) |
| WidgetDispatch.Choose | iotools/gui/widget/widget.py:61-87 | choices give a drop-down; a dict of str to bool gives a check bar, any other dict a tree; an unknown class raises TypeError; every other widget accepts the argument's class |
| WidgetDispatch.AsWrittenAgrees | iotools/gui/widget/widget.py:61-87 | the written and intended choices agree except on dict arguments without choices, where only the intended one succeeds |
| WidgetDispatch.BooleanCheckbox | iotools/gui/widget/widget.py:66-67 | a boolean argument gets a checkbox whose state is its default, or False for None |
| WidgetDispatch.StringWidget | iotools/gui/widget/widget.py:80-81 | a string argument gets a multi-line text exactly when its magnitude exceeds 1, otherwise an entry |
| WidgetDispatch.DateTimeFormat | iotools/gui/widget/widget.py:76-77 | a date-time argument gets a date-time editor, showing the full format without a magnitude |
| WidgetDispatch.Binds | iotools/gui/widget/widget.py:89 | binding the chosen widget succeeds exactly when there are no choices or the argument is a string: a drop-down accepts string arguments only |
| WidgetDispatch.FromArgument | iotools/gui/widget/widget.py:61-89 | the chosen widget, fresh and bound to the argument, or the choice's error, or the TypeError of binding |
| Checkboxes.GetAt | iotools/gui/widget/checkbox.py:19-20 | a dict with distinct keys finds each entry under its key |
| Checkboxes.InvertedTable | iotools/gui/widget/checkbox.py:20 | `_states_to_values` is the inverse listing of `_values_to_states` |
| Checkboxes.InvertFirstDistinct | iotools/gui/widget/checkbox.py:20 | inverting a dict whose values do not repeat lists every entry swapped, in the original order |
| Checkboxes.Lookups | iotools/gui/widget/checkbox.py:19-20 | True, False and None map to checked, unchecked and partially checked, and back |
| Checkboxes.ExactInverse | iotools/gui/widget/checkbox.py:19-20 | the two dicts are inverse to each other |
| Checkboxes.StateValue | iotools/gui/widget/checkbox.py:44-45 | the value a check state reads as is its entry in `_states_to_values` |
| Checkboxes.NewState | iotools/gui/widget/checkbox.py:47-48 | a three-state box takes exactly True, False, None (and 1, 0) and reads back the value, otherwise KeyError; a two-state box takes booleans, None reading as False |
| Checkboxes.Checkbox.constructor | iotools/gui/widget/checkbox.py:22-31 | the caption or empty text, the tristate flag, and checked exactly when the given state is True |
| Checkboxes.Checkbox.SetState | iotools/gui/widget/checkbox.py:47-48 | a refused value raises and leaves the box; otherwise the box reads back the value given |
| Checkboxes.Subscript | iotools/gui/widget/checkbox.py:74 | `val[text]` on a dict: the value under the key, or KeyError |
| Checkboxes.Outcome | iotools/gui/widget/checkbox.py:73-74 | a box of the bar never becomes partially checked |
| Checkboxes.Outcomes | iotools/gui/widget/checkbox.py:73-74 | one outcome per box, in order |
| Checkboxes.FirstErr | iotools/gui/widget/checkbox.py:73-74 | the first box whose assignment raises, every earlier one succeeding |
| Checkboxes.StateDict | iotools/gui/widget/checkbox.py:69-70 | `_get_state`: each box's text with the value of its state, in order |
| Checkboxes.StateRoundTrip | iotools/gui/widget/checkbox.py:69-74 | setting a check bar to its own state finds every box's text and gives each box the state it had, raising nothing |
| Checkboxes.CheckBar.constructor | iotools/gui/widget/checkbox.py:61-67 | one two-state box per choice, with its text and state, in order |
| Checkboxes.CheckBar.SetState | iotools/gui/widget/checkbox.py:72-74 | the boxes take their values from the dict in order until the first that raises, whose exception propagates; later boxes are untouched |
| Checkboxes.AssignStates | iotools/gui/widget/checkbox.py:72-74 | the loop over the boxes: each box takes its outcome from the dict until the first outcome that raises, whose exception is returned; that box and the later ones keep their states |
| LogBase.LJust | iotools/log/base.py:97 | `str.ljust`: the string, padded with spaces on the right to at least the width |
| LogBase.PrefixedLines | iotools/log/base.py:94 | each line behind the prefix and through the line format, one output per line |
| LogBase.Format | iotools/log/base.py:88-94 | a record at level 100 is written as its message, untouched |
| LogBase.SameLineFormat | iotools/log/base.py:88-94 | the output depends on the line format only through what it gives each line |
| LogBase.FormatLines | iotools/log/base.py:88-100 | the output has as many lines as the stripped message, line i being the prefix and the formatted line i |
| LogBase.PlainFormatKeepsMessage | iotools/log/base.py:88-103 | with the plain line format, dropping the prefix from each output line gives back the stripped message |
| LogBase.SetFormatString | iotools/log/base.py:63-70 | None or the default format string is accepted; any other string raises ValueError |
| LogBase.SetFormatter | iotools/log/base.py:76-82 | only None is accepted; anything else raises ValueError |
| LogBase.Delimiter | iotools/log/base.py:123-131 | 200 hyphens or 200 equal signs |
| LogBase.Greeting | iotools/log/base.py:105-107 | the user line, then a single delimiter, both at DEBUG |
| LogBase.Goodbye | iotools/log/base.py:109-110 | a double delimiter at DEBUG |
| LogBase.ExceptionRecords | iotools/log/base.py:115-117 | a single delimiter at DEBUG, then the traceback at CRITICAL |
| NestedLogs.UnwoundShape | iotools/log/nested.py:99-106 | popping stops at the newest frame the record shares, which stays; the frames popped are absent from the record's; the stack ends empty exactly when none is shared |
| NestedLogs.RefreshShape | iotools/log/nested.py:91-106 | after a refresh the top frame is the record's topmost one, unless the stack emptied; it grows by at most one frame |
| NestedLogs.RefreshSameFrame | iotools/log/nested.py:99-106 | logging again from the frame on top leaves the stack as it is |
| NestedLogs.NestedLog.constructor | iotools/log/nested.py:19-71 | a stack-frame log keeps the given token, while an indentation log keeps four spaces whatever it is given, because its `__init__` does not pass the token on; indentation on, level 0 and no frames |
| NestedLogs.NestedLog.Level | iotools/log/nested.py:87-89 | a stack-frame log's level is its frame count less one; an indentation log's is its counter |
| NestedLogs.NestedLog.Formatted | iotools/log/nested.py:27-28 | without indentation a record is formatted as by the base class |
| NestedLogs.NestedLog.EnterNoIndentation | iotools/log/nested.py:42-45 | indentation is switched off and the previous setting kept |
| NestedLogs.NestedLog.ExitNoIndentation | iotools/log/nested.py:46-47 | the setting is restored, but not when the block raised, since the generator is not guarded |
| NestedLogs.NestedLog.EnterIndentation | iotools/log/nested.py:58-61 | the level rises by one |
| NestedLogs.NestedLog.ExitIndentation | iotools/log/nested.py:61-62 | the level falls by one again, but not when the block raised |
| NestedLogs.NestedLog.RefreshFrames | iotools/log/nested.py:91-106 | a record without frames raises IndexError; otherwise the stack becomes `Refreshed` |
| NestedLogs.NestedLog.Format | iotools/log/nested.py:82-85 | a stack-frame log refreshes its frames while indenting, then formats as the base class does with its line format |
| NestedLogs.NestedLog.FormatUnindented | iotools/log/nested.py:30-40 | inside `no_indentation`, a record is formatted as by the base class |
| NestedLogs.NestedLog.Unindented | iotools/log/nested.py:30-40 | records logged inside `no_indentation` come out as the base class formats them, and the log's state is as before |
| NestedLogs.NestedLog.Greeting | iotools/log/nested.py:30-32 | the greeting without indentation |
| NestedLogs.NestedLog.Goodbye | iotools/log/nested.py:34-36 | the goodbye without indentation |
| NestedLogs.NestedLog.HandleException | iotools/log/nested.py:38-40 | the exception records without indentation |
| NestedLogs.NestedLog.Enter | iotools/log/nested.py:74-76 | the frames are cleared and the greeting written |
| NestedLogs.NestedLog.Exit | iotools/log/nested.py:78-80 | when an exception was raised, the single delimiter and then the traceback, unindented; then the goodbye; the frames are cleared |
| NestedLogs.UnindentedIsPlain | iotools/log/nested.py:27-28 | with indentation off the nested line format is the plain one |
| NestedLogs.IndentedLines | iotools/log/nested.py:27-28 | with indentation on, each line of the message is written behind the prefix and the token repeated by the level |
| NestedLogs.RepeatNoNewline | iotools/log/nested.py:28 | a token without a line break repeated has none |
| PrintLogs.Redirected | iotools/log/print_log.py:16-19 | text is logged exactly when it is not blank, and then stripped |
| PrintLogs.CountPositive | iotools/log/print_log.py:46 | a line counts the sequence exactly when it contains it |
| PrintLogs.LastAt | iotools/log/print_log.py:50 | the last occurrence at or before a position |
| PrintLogs.AfterLast | iotools/log/print_log.py:50 | what follows the last occurrence is no longer than the line |
| PrintLogs.AfterLastSuffix | iotools/log/print_log.py:50 | and it is a suffix of the line |
| PrintLogs.AfterLastClean | iotools/log/print_log.py:50 | and it no longer contains the sequence |
| PrintLogs.Counts | iotools/log/print_log.py:46 | one count per line |
| PrintLogs.Skips | iotools/log/print_log.py:45-53 | the skip counter before each line, starting at 0, as the loop updates it |
| PrintLogs.Renders | iotools/log/print_log.py:50 | one rendering per line |
| PrintLogs.KeptAt | iotools/log/print_log.py:47-50 | the lines kept among the first n |
| PrintLogs.KeptAtShape | iotools/log/print_log.py:47-50 | a line is kept exactly when the counter before it is 0, in order |
| PrintLogs.SkipsPrefix | iotools/log/print_log.py:45-53 | the counters of a prefix are the prefix of the counters |
| PrintLogs.KeptLinesAt | iotools/log/print_log.py:47-50 | the output lines are the renderings of the kept lines |
| PrintLogs.Reversed | iotools/log/print_log.py:44 | `reversed` |
| PrintLogs.PostProcess | iotools/log/print_log.py:40-55 | the loop over the reversed lines ends with the file content `Erased` describes |
| PrintLogs.UntouchedWithoutSequence | iotools/log/print_log.py:43 | a file without the clear-line sequence is left as it is |
| PrintLogs.RenderedClean | iotools/log/print_log.py:50 | a kept line no longer contains the sequence, and adds no character |
| PrintLogs.FilePositions | iotools/log/print_log.py:44-55 | the kept lines' positions in the file, increasing |
| PrintLogs.InFileOrder | iotools/log/print_log.py:44-55 | reversed again, the kept lines are in file order |
| PrintLogs.KeptContent | iotools/log/print_log.py:44-55 | each line kept is the rendering of a line of the file, without the sequence or a line break |
| PrintLogs.ErasedLines | iotools/log/print_log.py:43-55 | post-processing keeps the renderings of the kept lines, in file order, and nothing with the sequence |
| PrintLogs.DropsPreceding | iotools/log/print_log.py:52-53 | a line with n sequences drops each of the n lines before it |
| PrintLogs.DropsPrecedingLines | iotools/log/print_log.py:52-53 | so a line erased by a later line's sequences is not kept |
| PrintLogs.DropsFloor | iotools/log/print_log.py:52-53 | the counter never falls below what a line's count still demands |
| Scripts.Spec | iotools/misc/script.py:28-44 | a plain function is an instance method, a staticmethod static, a classmethod a class method, anything else callable unknown; the name is qualified by the class; a non-callable has no `__func__` and raises AttributeError |
| Scripts.Wrap | iotools/misc/script.py:46-56 | wrapping keeps the function's kind and adds one layer; a function of unknown kind raises ValueError |
| Scripts.WrapKeepsKind | iotools/misc/script.py:28-56 | a wrapped member is read back as the same kind of function |
| Scripts.WrapFailsOnlyForBoundMethods | iotools/misc/script.py:46-54 | wrapping fails exactly for members of unknown kind |
| Scripts.WrapFrom | iotools/misc/script.py:93-99 | each member of a class from position i on, wrapped or recursed into |
| Scripts.WrapMembers | iotools/misc/script.py:93-99 | each member of a class, wrapped or recursed into |
| Scripts.Unwrapped | iotools/misc/script.py:93-99 | the shape of a member with its wrappers dropped keeps whether it is callable |
| Scripts.UnwrappedFrom | iotools/misc/script.py:93-99 | each member from position i on, with wrappers dropped |
| Scripts.WrapOneShape | iotools/misc/script.py:93-99 | wrapping changes nothing but wrapper layers, in nested classes too |
| Scripts.WrapMembersShape | iotools/misc/script.py:93-99 | a function that qualifies (`__init__` or not a dunder) gains exactly the script wrapper; other members stay as they were |
| Scripts.Created | iotools/misc/script.py:88-91 | the base class itself is left alone; a subclass always ends with an `__init__` |
| Scripts.CreatedInit | iotools/misc/script.py:88-91 | a subclass's `__init__` is its own wrapped by the script wrapper and then the init wrapper, or the inherited one wrapped by the init wrapper only |
| Scripts.GetWrapped | iotools/misc/script.py:93-96 | each attribute read after wrapping is the wrapped original |
| Scripts.KeysSame | iotools/misc/script.py:93-96 | wrapping keeps the attribute names |
| Scripts.GetIndex | iotools/misc/script.py:94 | the first position of a name |
| Scripts.GetAt | iotools/misc/script.py:94 | the first entry of a name is what is read under it |
| Scripts.PrefixedLines | iotools/misc/script.py:75 | each non-empty line behind the prefix, empty lines left empty |
| Scripts.PrefixedTextLines | iotools/misc/script.py:74-75 | the file text has the text's lines, the non-empty ones behind the prefix, and dropping the prefix gives the text back |
| Scripts.NestedPrintLog.constructor | iotools/misc/script.py:60-62 | the given destinations and token, level 0, nothing written |
| Scripts.NestedPrintLog.Write | iotools/misc/script.py:68-76 | the text goes to the stream when chosen, and to the file behind the time stamp and indentation when chosen; the level stays |
| Scripts.NestedPrintLog.EnterIndentation | iotools/misc/script.py:78-81 | the level rises by one |
| Scripts.NestedPrintLog.ExitIndentation | iotools/misc/script.py:81-82 | the level falls by one, but not when the block raised |
| Scripts.ShownPositional | iotools/misc/script.py:136 | an instance or class method hides its first positional argument |
| Scripts.KeywordParts | iotools/misc/script.py:136 | each keyword as `name=repr` |
| Scripts.JoinEmpty | iotools/misc/script.py:136-137 | a join is empty exactly when there is nothing, or one empty part |
| Scripts.ArgumentsShape | iotools/misc/script.py:136-137 | positional arguments, then keywords, with `, ` between them only when both are present |
| Scripts.ReceiverHidden | iotools/misc/script.py:135-137 | the receiver of a bound call never appears in the log line |
| Scripts.LoggedCall | iotools/misc/script.py:133-147 | an instance method called without arguments raises IndexError; otherwise the start line is written, the call runs one level deeper, and the finish line is written at the old level when it returns; an exception leaves the level raised and writes no finish line; the level afterwards is `LevelAfter` of the call's outcome |
| Scripts.LeakedLevels | iotools/misc/script.py:78-82 | each call that raises leaves the level one higher |
| Scripts.BalancedLevels | iotools/misc/script.py:78-82 | calls that return leave the level as it was |
| Scripts.LevelAfterConcat | iotools/misc/script.py:133-147 | the level after two runs of wrapped calls is the level after the first, carried through the second, so successive `LoggedCall`s compose |
| Scripts.PublicParts | iotools/misc/script.py:171-172 | the repr shows only attributes whose names do not start with an underscore |
| Scripts.PrivateHidden | iotools/misc/script.py:171-172 | a private attribute does not change the script's repr |
| Scripts.PrivateHiddenParts | iotools/misc/script.py:172 | and does not change its parts |
| Scripts.FinishInit | iotools/misc/script.py:114-129 | an Exception's traceback is written to the file, then always the final state; the script is serialised as the logging level says; the exception is raised again |
| Scripts.SerialisesCases | iotools/misc/script.py:125 | TEXT_ONLY never serialises, ALWAYS_SERIALIZE always, SERIALIZE_ON_FAILURE exactly after an exception |
| Scripts.TwoDigits | iotools/misc/script.py:111 | `:02d` of a number below 100 has two digits |
| Scripts.TwoDigitsValue | iotools/misc/script.py:111 | and reads back as the number |
| Scripts.LogFileNameTime | iotools/misc/script.py:111 | the log file name `[HHh MMm SSs].txt` holds the hour, minute and second |
| Consoles.ClearLines | iotools/misc/console.py:47-49 | the text is the cursor-up sequence followed by the clear-line sequence, once per line cleared: its `k`-th seven characters are that pair for every `k` below `num`, and nothing is written for zero or fewer |
| Consoles.PyIndex | iotools/misc/console.py:149 | Python indexing: negative indices count from the end, anything outside raises IndexError |
| Consoles.Moved | iotools/misc/console.py:142-147 | Up moves up but not above the first choice, Down down but not past the last, any other key leaves the cursor |
| Consoles.MovedInRange | iotools/misc/console.py:142-147 | the cursor stays among the choices |
| Consoles.CollectChoice | iotools/misc/console.py:129-157 | the key loop ends as `Choose` describes |
| Consoles.ChooseOutcome | iotools/misc/console.py:129-157 | Enter chooses one of the choices, Esc raises KeyboardInterrupt, and without either the menu keeps waiting |
| Consoles.EmptyMenuRaises | iotools/misc/console.py:149 | Enter on an empty menu raises IndexError |
| Consoles.Ascending | iotools/misc/console.py:195 | the selected indices below n, in increasing order, each once |
| Consoles.Picked | iotools/misc/console.py:195 | the picked choices exist exactly when every selected index is in range; otherwise IndexError |
| Consoles.PickedExactly | iotools/misc/console.py:195 | one choice per selected index, in increasing index order |
| Consoles.CollectChoices | iotools/misc/console.py:159-195 | the key loop ends as `ChooseMany` describes |
| Consoles.ChooseManyOutcome | iotools/misc/console.py:159-195 | Enter returns choices from the list, Esc raises KeyboardInterrupt, and without either the menu keeps waiting |
| Consoles.SelectOne | iotools/misc/console.py:180-186 | Right then Enter returns the current choice alone; Right, Left, Enter returns nothing |
| Consoles.PickedSingle | iotools/misc/console.py:195 | one selected index picks its choice |
| Consoles.PickedNone | iotools/misc/console.py:195 | no selection picks nothing |
| Consoles.AscendingSingle | iotools/misc/console.py:195 | a single index lists itself |
| Consoles.AscendingNone | iotools/misc/console.py:195 | nothing selected lists nothing |
| Consoles.StartIndex | iotools/misc/console.py:62 | no starting choice starts at 0; otherwise the first position of the starting choice, or a ValueError when it is absent |
| Consoles.OfferChoice | iotools/misc/console.py:52-73 | a KeyboardInterrupt becomes SystemExit; a result is one of the choices; on a non-empty menu the only other exception is the ValueError of an absent starting choice |
| Consoles.EmptyOutcome | iotools/misc/console.py:129-157 | an empty menu never returns a choice |
| Consoles.OfferChoices | iotools/misc/console.py:52-73 | the same for the multi-select menu |
| Consoles.YesNoMappings | iotools/misc/console.py:78 | the yes text maps to True and the no text to False; equal texts keep only False |
| Consoles.OfferYesOrNo | iotools/misc/console.py:76-80 | no KeyboardInterrupt escapes |
| Consoles.YesOrNoAnswers | iotools/misc/console.py:76-80 | the answer is True exactly when the yes text is chosen |
| Consoles.YesOrNoKeys | iotools/misc/console.py:76-80 | Enter accepts the default; Up then Enter says yes; Down then Enter says no |
| Consoles.YesOrNoSameTexts | iotools/misc/console.py:78-80 | with equal texts the answer is always False |

## Left out

- Foreign converters and checks: typepy's `is_type` / `convert`, `eval` in `_pre_process` / `_try_eval`, the pathlib existence checks, the subtype wrappers (`DateTime`, `Str`, `after_last`) and `repr` / `str` of foreign objects are function-valued parameters (an `Env`), not modelled code.
- Floating point: `FloatValidator`, `DecimalValidator`, `TypeValidator.is_int_or_similar` / `is_float_or_similar` and the numeric widgets use floats, which the model does not have.
- `Validate.infer_type` reads a registry that a metaclass fills as classes are defined; the model holds it as a constant table (`MiscValidator.Registry`) of the library's own validator classes in definition order, so validator subclasses a user defines and registers through the metaclass are left out.
- The snapshot's modules do not all agree with each other: both `Argument` classes pass `choices=` to a misc `Validator` whose constructor accepts only `nullable` (see Findings), and the model's constructors set the choices instead; the `DictionaryArgument`, `EnumArgument` and `CollectionValidator` that some files import are defined nowhere, so each file is modelled on its own terms.
- `DeepTypedArgument` and the `of_type` step on dict arguments are left out: both argument modules import a `CollectionValidator` (iotools/command/argument.py:12, iotools/handler/argument.py:12) that is defined nowhere, and `of_type(deep_type)` passes one type where the dict validator's `of_type` takes a key and a value type (iotools/misc/validator.py:299), so the step cannot run as written.
- `use_subtypes` (iotools/handler/arghandler.py:52) is stored but no validator reads it, so the model has no field for it.
- CommandHandlers: `bool(handler)` recurses through groups; the handler graph is an index arena in which Python could build a cycle, so the recursion carries a `fuel` bound, and with fuel exhausted a handler counts as truthy. CommandHandlers.NearestCommand walks parents with the same bound and reports a RuntimeError ("parent cycle") when it runs out; the source raises no such error and would loop forever on a cycle.
- Hierarchies: building the `Hierarchy` tree from a handler and its subhandlers, the GUI and command-line strategies (`run_as_gui`, `run_from_commandline`, argparse), the `set_widgets_*` methods and saving or loading the latest configuration are left out; the tree is given as an arena whose parents come before their children.
- IOHandlers.Argument.constructor: builds the corrected validator of `IOHandlers.ArgType`; as written, iotools/iohandler.py:194 raises TypeError for every argument (modelled by `IOHandlers.ArgTypeAsWritten`, see Findings), so no `Argument` could be built at all.
- HandlerArgument.Argument.constructor: builds the corrected validator of `CommandArgument.ArgumentValidator`; as written, iotools/handler/argument.py:31 raises TypeError for every argument (`CommandArgument.ValidatorAsWritten`) and line 34 raises AttributeError for a list or dict of conditions (`HandlerArgument.ConditionsAsWritten`), see Findings; that module also imports the undefined `CollectionValidator`, so as written it does not load.
- HandlerArgument.Argument.constructor: does not model `_try_to_add_self_to_top_of_stack` (iotools/handler/argument.py:36, 81-85), which hands the new argument to the handler of the innermost command class being defined; `CommandMeta` and its class-definition stack (iotools/handler/command.py) are not part of this model, so an argument is attached to its handler explicitly, by `ArgHandlers.ArgHandler.AddArgument`.
- CommandArgument.Argument.constructor: builds the corrected validator of `CommandArgument.ArgumentValidator`; as written, iotools/command/argument.py:32 raises TypeError for every argument (`CommandArgument.ValidatorAsWritten`, see Findings). It also does not model `Stack.commands[-1]._handler_.add_argument(self)` (iotools/command/argument.py:39-40), which hands the new argument to the handler of the innermost command being declared; the declarative stack (iotools/command/stack.py) is not part of this model, so an argument is attached explicitly, by `CommandHandlers.HandlerTree.AddArgument`. The model also keeps `name` fixed from construction (a `const` that the alias set contains), whereas the source's `name` defaults to None and the declarative layer assigns it later (iotools/command/declarative.py:33), after the alias set was built at line 66, so a declared argument does not get its own `--name` flag.
- MiscValidator.InferType: given a validator instance, `infer_type` returns that same object (iotools/misc/validator.py:452-453), so later setters on the item validator change the caller's validator too; the model works on values and copies it, so that aliasing is not captured.
- IoToolsValidator.Validator.constructor: requires the defaults for the list and dict classes; the TypeError that `ListValidator(nullable=True)` or `DictionaryValidator(strict=True)` raises is not modelled.
- IoHandlerValidator.Validator.constructor: requires the defaults for the list and dict classes, whose `__init__` takes no arguments (iohandler/validator.py:155, 191); the TypeError that `ListValidator(nullable=True)` or `DictionaryValidator(strict=True)` raises is not modelled.
- MiscValidator.InferType: an argument that is neither a validator, None nor a class is not modelled: a hashable object such as `3` goes through the registry lookup and, matching nothing, gives `UnknownTypeValidator(constructor=obj)`, and an unhashable one such as a list raises the TypeError of `registry.get` (iotools/misc/validator.py:459); `TypeArg` has no case for such objects.
- Hierarchies.DetermineChosenNode: the "May only provide 1 subcommand" message joins the names found in the order of the node's children; Python joins them in the iteration order of a set, which it does not fix.
- Python strings and values: identifiers (`isidentifier`), `isalnum`, `lower` and `strip` are modelled for ASCII only; `Python.IsSpace` lacks `\x1c`-`\x1f` and the Unicode spaces; value equality is structural, so `True == 1` and `1 == 1.0` do not hold in the model. This affects name validation, the choice of short aliases, the bool words, choice membership and the stripping of log text for non-ASCII input and for mixed bool and int values.
- IOHandlers.RunProgrammatically: `process()` passes the subcommand as a name while `_run_programatically` is annotated to take a handler; the model follows the annotation.
- IoHandlerValidator.TypeOf: the iohandler `Type` given a validator instance returns that same object, and `.nullable()` then changes the caller's validator; the model copies the value, so that aliasing is not captured.
- The `sys.argv` and IPython mode choice, `_run_from_commandline`, `format_help` and the argparse and tabulate wrappers are left out.
- Qt: widget layout, signals, the event loop and the Qt widgets themselves are left out; what a Qt widget reports in `_get_state` is a parameter, and a non-bool handed to `setChecked` is Qt's to refuse.
- Checkboxes: the checkboxes of a `CheckBar` are held as a list of texts and states rather than as child widget handlers with parent links.
- Set iteration order (the alias set, `selected_indices`) is not fixed by Python; the model iterates the alias set in insertion order and `selected_indices` in ascending order. Consoles.Picked, Consoles.Ascending and Consoles.PickedExactly therefore state their results in ascending index order, which CPython gives for small non-negative integers in practice but does not promise; which items are picked does not depend on the order, and the order of aliases of equal length follows insertion order.
- LogBase: the logbook handlers, the file the log writes to and the level numbers' registry are left out; a log's file is a list of lines per channel and the level numbers are constants.
- The clock and `Timer`: times are given as parameters and rendered as strings.
- NestedLogs: `StackFrameLog.true_frames` reads the interpreter's stack; frames are opaque identifiers given as a parameter.
- NestedLogs, Scripts: the context managers `indentation()` and `no_indentation()` have no `try`/`finally`, so the model restores the level or flag on normal exit only, as written.
- Scripts: `script.py` calls methods of `PrintLog` that the snapshot's `log/` package does not define, so its `NestedPrintLog` is modelled as a small class of its own holding a level and the text of each channel.
- Scripts: the appdirs choice between the user and site log directory, pickling of the script object, `add_newlines`, `functools.wraps` / `inspect` in the metaclass and entering or leaving the logbook handlers are left out; what the wrapped callee itself writes is not modelled.
- Scripts: a nested class is reached by its attribute name, and the model's class tree cannot be cyclic.
- Scripts.LoggedCall: takes the log as a non-null object; in the source a wrapped method called while `cls.log` is still `None` (iotools/misc/script.py:139, before any `__init__` has set it at line 112) raises AttributeError, which the model does not capture.
- Consoles: reading keys (readchar), the `prompt_choices` branch used under IPython, printing the menu and its help, `surround_sep` / `print_sep`, hiding and showing the console window and the separator constants are left out; the keys are given as a sequence.
- Consoles.Picked: a negative `starting_choice` index is treated as out of range.

## Findings

| source | as written | input that shows it | evidently intended | confidence | as-written member | corrected member |
|---|---|---|---|---|---|---|
| iotools/misc/validator.py:249-257 | `is_valid` of a list validator with a deep type iterates over `super().convert(value)` even when the value is None | a nullable `ListValidator().of_type(int)` asked `is_valid(None)` raises TypeError | answer the nullable flag for None | not executed | MiscValidator.IsValidNoneWithDeepTypes | MiscValidator.IsValidIntended |
| iotools/validator.py:206-213 | `convert` of a list validator with a dtype iterates over the base conversion, which is None for None | a nullable list validator with dtype int given None raises TypeError | pass None through when nullable | not executed | IoToolsValidator.ConvertNoneParametrizedList | IoToolsValidator.ConvertIntended |
| iohandler/validator.py:64-68 | each condition is applied to `self(value)`, and `convert` itself raises ValueError on the first failing condition | a value of the right type that fails a condition makes `is_valid` raise ValueError | `is_valid` answers False | not executed | IoHandlerValidator.IsValidRaisesOnFailedCondition | IoHandlerValidator.IsValidIntended |
| iotools/typevalidator.py:109-113 | with `coerce=False` the bool handler clears `_valid` but goes on to convert strings | the string "y" with `coerce=False` ends valid as True | without coerce only a real bool is valid | not executed | TypeValidation.BoolCoercesWithoutCoerce | TypeValidation.BoolOutcomeIntended |
| iotools/command/handler.py:75-80 | the short alias is appended to the list the `aliases` getter builds afresh on each read | adding an argument "alpha" to a fresh command handler: `a` leaves the pool, the flags stay `--alpha` alone | the argument gains `-a` | not executed | CommandHandlers.HandlerTree.AddToCommandAsWritten | CommandHandlers.HandlerTree.AddToCommand |
| iotools/command/hierarchy.py:52 | `all_kwargs` is updated from the tuple of positionals, not from the dict it holds | a positional dict `{"verbose": True}` raises ValueError; `{"a": 1, "b": 2}` stores "b" under "a" | merge the dict into the keyword arguments | not executed | Hierarchies.CollectArgumentsAsWritten | Hierarchies.CollectArguments |
| iotools/handler/argument.py:33-34 | the test is `isinstance(list, dict)`, which is always False, so a list or dict of conditions goes whole to `add_condition`; the TypeError of line 31 (next row) hides this, since no argument gets that far | conditions given as a list of one condition make building the argument raise AttributeError, since a list has no `__name__` | add each condition of the list | not executed | HandlerArgument.ConditionsAsWritten | CommandArgument.AddedConditions |
| iotools/command/argument.py:32 | the validator class is called with the keyword `choices`, which no misc validator class accepts | `BooleanArgument("x")` raises TypeError, as does every other argument | build the validator with its nullability, then set its choices | not executed | CommandArgument.ValidatorAsWritten | CommandArgument.ArgumentValidator |
| iotools/handler/argument.py:31 | the same call with the keyword `choices` | `BooleanArgument("x")` of the handler package raises TypeError, as does every other argument | build the validator with its nullability, then set its choices | not executed | CommandArgument.ValidatorAsWritten | CommandArgument.ArgumentValidator |
| iotools/iohandler.py:131-136 | `_run_programatically` calls `_set_arguments_from_namespace`, which no class defines | any non-empty arguments dict raises AttributeError | set the values from the arguments, then return the namespace | not executed | IOHandlers.RunProgrammaticallyAsWritten | IOHandlers.RunProgrammatically |
| iotools/iohandler.py:194 | `Validate.Type` is called with the keyword `choices`, which no validator class of iotools/validator.py accepts | `Argument("x", argtype=int)` raises TypeError, as does every other argument | build the validator of the type, then set its nullability and choices | not executed | IOHandlers.ArgTypeAsWritten | IOHandlers.ArgType |
| iotools/iohandler.py:195-196 | the condition is stored in an attribute `conditions` that `convert` never reads; the TypeError of line 194 hides this, since no argument gets that far | once line 194 is mended, an argument with a condition that refuses the converted value accepts it | `convert` refuses it with ValueError | not executed | IOHandlers.ConditionIgnored | IOHandlers.ArgType |
| iotools/gui/widget/widget.py:64 | the dict branch reads `arg.validator.deep_type`, which a DictionaryValidator does not have | any dict argument without choices raises AttributeError | a CheckBar for str-to-bool dicts, else the generic Tree | not executed | WidgetDispatch.ChooseAsWritten | WidgetDispatch.Choose |
