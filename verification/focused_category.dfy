/** One FocusedLabelCategory: the pending input of a single category (choice
    set, slider or text), how it is seeded from the stored label value, how
    keys change it, and what Enter commits. */
module FocusedCategory {
  import opened ChatTypes
  import opened Sequences
  import opened Selection

  datatype InputKind = MultiSelectButton | Slider | TextInput

  /** A category descriptor as the component receives it. A bound or flag the
      configuration leaves out is `None` or `false`. */
  datatype Category = Category(
    name: string,
    kind: InputKind,
    choices: seq<Choice>,
    maxSelection: Option<int>,
    minSelection: Option<int>,
    allowNA: bool,
    allowDontKnow: bool,
    minLength: Option<int>)

  /** The component's uncommitted state. */
  datatype Pending = Pending(
    selected: seq<string>,
    sliderValue: int,
    isNA: bool,
    isDontKnow: bool,
    textValue: string,
    showError: bool)

  /** What a key press asks of the stepper. */
  datatype Effect = NoEffect | MovePrevious | Commit(value: LabelValue)

  datatype Step = Step(pending: Pending, effect: Effect)

  /** JavaScript truthiness of a stored value (`!value` is false for it). */
  predicate Truthy(value: Option<LabelValue>)
  {
    match value
    case None => false
    case Some(Str(s)) => s != ""
    case Some(Num(n)) => n != 0
    case Some(Choices(_)) => true
  }

  /** `minSelection || 0`. */
  function MinSelection(c: Category): int
  {
    match c.minSelection
    case None => 0
    case Some(n) => n
  }

  /** `options.minLength || 10`: a missing or zero minimum means 10. */
  function MinLength(c: Category): (n: int)
    ensures c.minLength.None? || c.minLength == Some(0) ==> n == 10
    ensures c.minLength.Some? && c.minLength.value != 0 ==> n == c.minLength.value
  {
    match c.minLength
    case None => 10
    case Some(n) => if n == 0 then 10 else n
  }

  /** `maxSelection || 1`, the cap the multi-select control is given. */
  function ControlCap(c: Category): int
  {
    match c.maxSelection
    case None => 1
    case Some(m) => if m == 0 then 1 else m
  }

  /** The start the shortcut listener passes to `slice(-maxSelection)`; an
      absent cap gives NaN, which `slice` reads as 0 (keep everything). */
  function WindowStart(maxSelection: Option<int>): int
  {
    match maxSelection
    case None => 0
    case Some(m) => -m
  }

  /** The `useState` initial values, from the stored value at mount. */
  function Initial(value: Option<LabelValue>): (p: Pending)
    ensures p.selected == [] && !p.showError
    ensures value.Some? && value.value.Num? ==> p.sliderValue == value.value.n
    ensures !(value.Some? && value.value.Num?) ==> p.sliderValue == 3
    ensures p.isNA <==> value == Some(Str(NotApplicable))
    ensures p.isDontKnow <==> value == Some(Str(DontKnow))
    ensures value.Some? && value.value.Str? ==> p.textValue == value.value.s
    ensures !(value.Some? && value.value.Str?) ==> p.textValue == ""
  {
    Pending(
      [],
      if value.Some? && value.value.Num? then value.value.n else 3,
      value == Some(Str(NotApplicable)),
      value == Some(Str(DontKnow)),
      if value.Some? && value.value.Str? then value.value.s else "",
      false)
  }

  /** The seeding effect, as written: it dispatches on the stored value's
      type and sets the one matching piece of state, leaving every other
      piece (including the override flags) as it was. */
  function Seed(p: Pending, value: Option<LabelValue>): (r: Pending)
    ensures r.showError == p.showError
    ensures value.None? ==> r == p
    ensures value.Some? && value.value.Choices? ==> r == p.(selected := value.value.items)
    ensures value.Some? && value.value.Num? ==> r == p.(sliderValue := value.value.n)
    ensures value == Some(Str(NotApplicable)) ==> r == p.(isNA := true)
    ensures value == Some(Str(DontKnow)) ==> r == p.(isDontKnow := true)
    ensures value.Some? && value.value.Str? && value.value.s != NotApplicable && value.value.s != DontKnow ==>
              r == p.(textValue := value.value.s)
  {
    match value
    case None => p
    case Some(Choices(items)) => p.(selected := items)
    case Some(Num(n)) => p.(sliderValue := n)
    case Some(Str(s)) =>
      if s == NotApplicable then p.(isNA := true)
      else if s == DontKnow then p.(isDontKnow := true)
      else p.(textValue := s)
  }

  /** Seeding as the re-seed rule intends: the override flags are made to
      agree with the stored value instead of being left from an earlier one. */
  function SeedCorrected(p: Pending, value: Option<LabelValue>): (r: Pending)
    ensures value.Some? ==> (r.isNA <==> value == Some(Str(NotApplicable)))
    ensures value.Some? ==> (r.isDontKnow <==> value == Some(Str(DontKnow)))
    ensures r.selected == Seed(p, value).selected && r.sliderValue == Seed(p, value).sliderValue
    ensures r.textValue == Seed(p, value).textValue && r.showError == p.showError
  {
    match value
    case None => p
    case Some(v) =>
      Seed(p, value).(isNA := v == Str(NotApplicable), isDontKnow := v == Str(DontKnow))
  }

  /** The clearing effect: a focused choice-set category whose stored value is
      falsy or an empty array starts from an empty selection. */
  function ClearIfEmpty(p: Pending, c: Category, isFocused: bool, value: Option<LabelValue>): (r: Pending)
    ensures r.(selected := p.selected) == p
    ensures isFocused && c.kind == MultiSelectButton && !Truthy(value) ==> r.selected == []
    ensures isFocused && c.kind == MultiSelectButton && value == Some(Choices([])) ==> r.selected == []
    ensures !isFocused || c.kind != MultiSelectButton ==> r == p
    ensures Truthy(value) && !(value.Some? && value.value == Choices([])) ==> r == p
  {
    if isFocused && c.kind == MultiSelectButton && (!Truthy(value) || value == Some(Choices([])))
    then p.(selected := [])
    else p
  }

  /** The component's own shortcut listener: the first option whose shortcut
      matches is toggled; a new option is appended and cut with
      `slice(-maxSelection)`. Only `selected` can change. */
  function ShortcutToggle(p: Pending, c: Category, isFocused: bool, key: string): (r: Pending)
    ensures r.(selected := p.selected) == p
    ensures !isFocused || c.kind != MultiSelectButton || ShortcutIndex(c.choices, key).None? ==> r == p
    ensures isFocused && c.kind == MultiSelectButton && ShortcutIndex(c.choices, key).Some? ==>
              var option := c.choices[ShortcutIndex(c.choices, key).value].name;
              && (option in p.selected ==> r.selected == Without(p.selected, option))
              && (option !in p.selected && c.maxSelection.Some? && c.maxSelection.value >= 1 ==>
                    r.selected == Newest(p.selected + [option], c.maxSelection.value))
              && (option !in p.selected && (c.maxSelection.None? || c.maxSelection == Some(0)) ==>
                    r.selected == p.selected + [option])
              && (option !in p.selected && c.maxSelection.Some? && c.maxSelection.value < 0 ==>
                    r.selected == (p.selected + [option])[Min(-c.maxSelection.value, |p.selected| + 1)..])
  {
    if !isFocused || c.kind != MultiSelectButton then p
    else match ShortcutIndex(c.choices, key)
      case None => p
      case Some(i) => p.(selected := Toggle(p.selected, c.choices[i].name, WindowStart(c.maxSelection)))
  }

  /** A click (or the control's shortcut) reported through `onSelectionChange`:
      the control's rule with cap `maxSelection || 1`, and the error is hidden. */
  function ClickOption(p: Pending, c: Category, option: string): (r: Pending)
    ensures !r.showError
    ensures r.(selected := p.selected, showError := p.showError) == p
    ensures r.selected == HandleSelection(p.selected, option, ControlCap(c))
    ensures ControlCap(c) == 1 ==> r.selected == [option]
    ensures ControlCap(c) > 1 ==> (option in r.selected <==> option !in p.selected)
  {
    p.(selected := ControlClick(p.selected, option, ControlCap(c)).changed.value, showError := false)
  }

  /** With no cap configured, a click on a chosen option keeps it as the only
      choice, whereas the shortcut listener removes it: the two rules differ. */
  lemma ClickAndShortcutDiffer(p: Pending, c: Category, key: string)
    requires c.kind == MultiSelectButton && c.maxSelection.None?
    requires ShortcutIndex(c.choices, key).Some?
    requires c.choices[ShortcutIndex(c.choices, key).value].name in p.selected
    ensures var option := c.choices[ShortcutIndex(c.choices, key).value].name;
            && ClickOption(p, c, option).selected == [option]
            && option !in ShortcutToggle(p, c, true, key).selected
  {
  }

  /** The slider listener: 'j' steps down to no less than 1, 'k' steps up to no
      more than 5, 'n' and 'd' toggle an override only when it is allowed. */
  function SliderKey(p: Pending, c: Category, isFocused: bool, key: string): (r: Pending)
    ensures r.selected == p.selected && r.textValue == p.textValue && r.showError == p.showError
    ensures !isFocused || c.kind != Slider ==> r == p
    ensures key == "j" && isFocused && c.kind == Slider ==>
              r == p.(sliderValue := if p.sliderValue - 1 < 1 then 1 else p.sliderValue - 1)
    ensures key == "k" && isFocused && c.kind == Slider ==>
              r == p.(sliderValue := if p.sliderValue + 1 > 5 then 5 else p.sliderValue + 1)
    ensures key == "n" ==>
              && r.sliderValue == p.sliderValue && r.isDontKnow == p.isDontKnow
              && (r.isNA <==> p.isNA != (isFocused && c.kind == Slider && c.allowNA))
    ensures key == "d" ==>
              && r.sliderValue == p.sliderValue && r.isNA == p.isNA
              && (r.isDontKnow <==> p.isDontKnow != (isFocused && c.kind == Slider && c.allowDontKnow))
    ensures key != "j" && key != "k" && key != "n" && key != "d" ==> r == p
  {
    if !isFocused || c.kind != Slider then p
    else if key == "j" then p.(sliderValue := if p.sliderValue - 1 < 1 then 1 else p.sliderValue - 1)
    else if key == "k" then p.(sliderValue := if p.sliderValue + 1 > 5 then 5 else p.sliderValue + 1)
    else if key == "n" && c.allowNA then p.(isNA := !p.isNA)
    else if key == "d" && c.allowDontKnow then p.(isDontKnow := !p.isDontKnow)
    else p
  }

  /** Pressing the keys of `keys` in turn. */
  function SliderKeys(p: Pending, c: Category, isFocused: bool, keys: seq<string>): Pending
    decreases keys
  {
    if keys == [] then p
    else SliderKeys(SliderKey(p, c, isFocused, keys[0]), c, isFocused, keys[1..])
  }

  /** A slider value in [1,5] stays in [1,5] whatever keys are pressed, and
      'j'/'k' never move it past the bound they approach. */
  lemma {:induction false} SliderStaysInRange(p: Pending, c: Category, isFocused: bool, keys: seq<string>)
    requires 1 <= p.sliderValue <= 5
    ensures 1 <= SliderKeys(p, c, isFocused, keys).sliderValue <= 5
    decreases keys
  {
    if keys != [] {
      SliderStaysInRange(SliderKey(p, c, isFocused, keys[0]), c, isFocused, keys[1..]);
    }
  }

  /** The value a slider confirm commits: an override token when one is set
      (N/A first), else the number. */
  function SliderValue(p: Pending): (v: LabelValue)
    ensures v.Num? <==> !p.isNA && !p.isDontKnow
    ensures v.Num? ==> v.n == p.sliderValue
    ensures p.isNA ==> v == Str(NotApplicable)
    ensures !p.isNA && p.isDontKnow ==> v == Str(DontKnow)
  {
    if p.isNA then Str(NotApplicable)
    else if p.isDontKnow then Str(DontKnow)
    else Num(p.sliderValue)
  }

  /** An override always beats the number: with either flag set, what is
      committed does not depend on where the slider was moved. */
  lemma OverrideBeatsNumber(p: Pending, v: int)
    requires p.isNA || p.isDontKnow
    ensures SliderValue(p.(sliderValue := v)) == SliderValue(p)
    ensures SliderValue(p) == Str(NotApplicable) || SliderValue(p) == Str(DontKnow)
  {
  }

  /** The uniform control contract: the candidate value of the pending input. */
  function Candidate(p: Pending, c: Category): LabelValue
  {
    match c.kind
    case MultiSelectButton => Choices(p.selected)
    case Slider => SliderValue(p)
    case TextInput => Str(p.textValue)
  }

  /** ... and whether the control accepts it. */
  predicate Accepts(p: Pending, c: Category)
  {
    match c.kind
    case MultiSelectButton => |p.selected| >= MinSelection(c)
    case Slider => true
    case TextInput => Utf16Length(p.textValue) >= MinLength(c)
  }

  /** `handleKeyDown`: Enter with Alt or Meta does nothing, Shift+Enter only
      asks to move back, and a plain Enter commits the candidate exactly when
      the control accepts it; a rejected choice set shows its error. */
  function KeyDown(p: Pending, c: Category, isFocused: bool, key: string,
                   shift: bool, alt: bool, meta: bool): (r: Step)
    ensures !isFocused || key != "Enter" || alt || meta ==> r == Step(p, NoEffect)
    ensures isFocused && key == "Enter" && !alt && !meta && shift ==> r == Step(p, MovePrevious)
    ensures r.effect.Commit? <==> isFocused && key == "Enter" && !alt && !meta && !shift && Accepts(p, c)
    ensures r.effect.Commit? ==> r.effect.value == Candidate(p, c) && r.pending == p
    ensures r.pending != p ==>
              c.kind == MultiSelectButton && |p.selected| < MinSelection(c) && r.pending == p.(showError := true)
    ensures isFocused && key == "Enter" && !alt && !meta && !shift && !Accepts(p, c) ==>
              r == Step(if c.kind == MultiSelectButton then p.(showError := true) else p, NoEffect)
  {
    if !isFocused || key != "Enter" || alt || meta then Step(p, NoEffect)
    else if shift then Step(p, MovePrevious)
    else match c.kind
      case MultiSelectButton =>
        if |p.selected| >= MinSelection(c) then Step(p, Commit(Choices(p.selected)))
        else Step(p.(showError := true), NoEffect)
      case Slider => Step(p, Commit(SliderValue(p)))
      case TextInput =>
        if Utf16Length(p.textValue) >= MinLength(c) then Step(p, Commit(Str(p.textValue)))
        else Step(p, NoEffect)
  }

  /** The text category's Submit button: disabled, so inert, while the text
      is shorter than the minimum; otherwise it commits the text. The Submit
      button and Enter apply the same length test. */
  function SubmitText(p: Pending, c: Category): (e: Effect)
    requires c.kind == TextInput
    ensures e.Commit? <==> Utf16Length(p.textValue) >= MinLength(c)
    ensures e.Commit? ==> e.value == Str(p.textValue)
    ensures e == KeyDown(p, c, true, "Enter", false, false, false).effect
  {
    if Utf16Length(p.textValue) < MinLength(c) then NoEffect else Commit(Str(p.textValue))
  }

  /** With the default minimum, a text of 9 UTF-16 units is refused and one
      of 10 is committed. */
  lemma TextMinimumDefault(p: Pending, c: Category, nine: string, ten: string)
    requires c.kind == TextInput && c.minLength.None? && Utf16Length(nine) == 9 && Utf16Length(ten) == 10
    ensures KeyDown(p.(textValue := nine), c, true, "Enter", false, false, false).effect == NoEffect
    ensures KeyDown(p.(textValue := ten), c, true, "Enter", false, false, false).effect == Commit(Str(ten))
  {
  }

  /** The minimum counts UTF-16 units, not characters: five emoji outside
      the Basic Multilingual Plane meet the default minimum of 10. */
  lemma AstralTextMeetsMinimum(p: Pending, c: Category)
    requires c.kind == TextInput && c.minLength.None?
    ensures var five := seq(5, _ => '\U{1F600}');
            && |five| == 5
            && KeyDown(p.(textValue := five), c, true, "Enter", false, false, false).effect == Commit(Str(five))
  {
  }

  /** A value a slider confirm can store. */
  predicate SliderStorable(v: LabelValue)
  {
    v.Num? || v == Str(NotApplicable) || v == Str(DontKnow)
  }

  /** As written, seeding can leave an override from an earlier value in
      place: a component that showed N/A and is then seeded with the number 4
      still commits N/A. */
  lemma SeedKeepsStaleOverride(p: Pending)
    requires p.isNA
    ensures SliderValue(Seed(p, Some(Num(4)))) == Str(NotApplicable)
    ensures SliderValue(Seed(p, Some(Num(4)))) != Num(4)
  {
  }

  /** With the corrected seeding, confirming a slider right after seeding
      commits exactly the stored value, whatever state came before. */
  lemma CorrectedSeedRoundTrip(p: Pending, v: LabelValue)
    requires SliderStorable(v)
    ensures SliderValue(SeedCorrected(p, Some(v))) == v
  {
  }

  /** A freshly mounted slider category likewise reproduces its stored value. */
  lemma InitialRoundTrip(v: LabelValue)
    requires SliderStorable(v)
    ensures SliderValue(Initial(Some(v))) == v
  {
  }
}
