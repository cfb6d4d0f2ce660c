/** The choice-set selection rules: the toggle with its sliding window, the
    keyboard-shortcut lookup, the multi-select button control and the
    standalone LabelCategory component (which repeats the same rule). */
module Selection {
  import opened ChatTypes
  import opened Sequences

  /** One option of a choice-set category, in declaration order, with its
      optional one-key shortcut (`{ shortcut: string | null }`). */
  datatype Choice = Choice(name: string, shortcut: Option<string>)

  /** `toUpperCase` on one character, for the ASCII letters. */
  function UpperChar(c: char): char
  {
    if 'a' <= c <= 'z' then (c as int - 32) as char else c
  }

  function Upper(s: string): string
  {
    seq(|s|, i requires 0 <= i < |s| => UpperChar(s[i]))
  }

  /** `value.shortcut?.toUpperCase() === event.key.toUpperCase()`: a missing
      shortcut matches no key. */
  predicate ShortcutMatches(c: Choice, key: string)
  {
    c.shortcut.Some? && Upper(c.shortcut.value) == Upper(key)
  }

  /** `Object.entries(options).find(...)`: the position of the first option,
      in declaration order, whose shortcut matches the pressed key. */
  function ShortcutIndex(options: seq<Choice>, key: string): (r: Option<nat>)
    ensures r.None? <==> forall i :: 0 <= i < |options| ==> !ShortcutMatches(options[i], key)
    ensures r.Some? ==> r.value < |options| && ShortcutMatches(options[r.value], key)
    ensures r.Some? ==> forall j :: 0 <= j < r.value ==> !ShortcutMatches(options[j], key)
  {
    if options == [] then None
    else if ShortcutMatches(options[0], key) then Some(0)
    else match ShortcutIndex(options[1..], key)
      case None => None
      case Some(k) => Some(k + 1)
  }

  lemma UpperIdempotent(s: string)
    ensures Upper(Upper(s)) == Upper(s)
  {
  }

  /** The lookup ignores the case of the pressed key: a key and its upper-case
      form pick the same option. */
  lemma {:induction false} ShortcutCaseInsensitive(options: seq<Choice>, key: string)
    ensures ShortcutIndex(options, key) == ShortcutIndex(options, Upper(key))
  {
    UpperIdempotent(key);
    if options != [] {
      ShortcutCaseInsensitive(options[1..], key);
    }
  }

  /** The toggle both choice-set rules share: a chosen option is filtered out;
      a new one is appended and the array is cut with `slice(start)`. */
  function Toggle(selected: seq<string>, option: string, start: int): seq<string>
  {
    if option in selected then Without(selected, option)
    else SliceFrom(selected + [option], start)
  }

  /** `handleSelection` of the multi-select control and of LabelCategory:
      with a cap of one the option replaces the selection (no deselect);
      otherwise a chosen option is removed and a new one is appended,
      keeping only the newest `maxSelection` entries. */
  function HandleSelection(selected: seq<string>, option: string, maxSelection: int): (r: seq<string>)
    ensures maxSelection == 1 ==> r == [option]
    ensures maxSelection != 1 && option in selected ==>
              && r == Without(selected, option)
              && option !in r && |r| < |selected|
              && forall x :: x != option ==> (x in r <==> x in selected)
    ensures maxSelection > 1 && option !in selected ==>
              |r| == Min(maxSelection, |selected| + 1) && r[|r| - 1] == option &&
              r[..|r| - 1] == selected[|selected| + 1 - |r|..]
    ensures maxSelection == 0 && option !in selected ==> r == selected + [option]
    ensures maxSelection < 0 && option !in selected ==>
              r == (selected + [option])[Min(-maxSelection, |selected| + 1)..]
  {
    if maxSelection == 1 then [option]
    else Toggle(selected, option, -maxSelection)
  }

  lemma {:induction false} WithoutNoDup(s: seq<string>, x: string)
    requires NoDup(s)
    ensures NoDup(Without(s, x))
  {
    if s != [] {
      WithoutNoDup(s[1..], x);
      assert s[0] !in s[1..] by {
        forall j | 1 <= j < |s| ensures s[j] != s[0] { }
      }
    }
  }

  /** A selection that respects the cap and has no repeats keeps both
      properties after any click or shortcut. */
  lemma SelectionStaysWithinCap(selected: seq<string>, option: string, maxSelection: int)
    requires maxSelection >= 1 && |selected| <= maxSelection && NoDup(selected)
    ensures NoDup(HandleSelection(selected, option, maxSelection))
    ensures |HandleSelection(selected, option, maxSelection)| <= maxSelection
  {
    var r := HandleSelection(selected, option, maxSelection);
    if maxSelection == 1 {
      assert r == [option];
    } else if option in selected {
      WithoutNoDup(selected, option);
    } else {
      var t := selected + [option];
      assert NoDup(t) by {
        forall i, j | 0 <= i < j < |t| ensures t[i] != t[j] {
          if j == |selected| { assert t[i] in selected; }
        }
      }
      assert r == t[|t| - |r|..];
    }
  }

  /** Deselecting removes exactly that option and keeps the others in order. */
  lemma DeselectKeepsOrder(selected: seq<string>, i: int, maxSelection: int)
    requires maxSelection != 1 && NoDup(selected) && 0 <= i < |selected|
    ensures HandleSelection(selected, selected[i], maxSelection) == selected[..i] + selected[i + 1..]
  {
    RemoveUnique(selected, i);
  }

  /** The newest `n` entries of `s`. */
  function Newest(s: seq<string>, n: nat): seq<string>
  {
    s[|s| - Min(n, |s|)..]
  }

  /** Clicking the options of `opts` one after another, from an empty selection. */
  function SelectEach(opts: seq<string>, maxSelection: int): seq<string>
  {
    if opts == [] then []
    else HandleSelection(SelectEach(opts[..|opts| - 1], maxSelection), opts[|opts| - 1], maxSelection)
  }

  lemma NewestStep(p: seq<string>, y: string, maxSelection: int)
    requires maxSelection >= 1 && y !in p
    ensures HandleSelection(Newest(p, maxSelection), y, maxSelection) == Newest(p + [y], maxSelection)
  {
    var w := Newest(p, maxSelection);
    var r := HandleSelection(w, y, maxSelection);
    var t := Newest(p + [y], maxSelection);
    if maxSelection == 1 {
      assert t == [y];
    } else {
      assert y !in w;
      assert |r| == |t|;
      assert r[|r| - 1] == y == t[|t| - 1];
      forall k | 0 <= k < |r| - 1
        ensures r[k] == t[k]
      {
        assert r[k] == w[|w| + 1 - |r| + k];
      }
    }
  }

  /** Sliding window: after clicking distinct options one by one, the
      selection is exactly the newest `maxSelection` of them, in click order,
      never fewer. */
  lemma {:induction false} SlidingWindow(opts: seq<string>, maxSelection: int)
    requires maxSelection >= 1 && NoDup(opts)
    ensures SelectEach(opts, maxSelection) == Newest(opts, maxSelection)
  {
    if opts != [] {
      var p := opts[..|opts| - 1];
      var y := opts[|opts| - 1];
      assert opts == p + [y];
      SlidingWindow(p, maxSelection);
      NewestStep(p, y, maxSelection);
    }
  }

  /** What the multi-select button control reports: the selection passed to
      `onSelectionChange`, if it was called, and its own error flag. */
  datatype ControlOutput = ControlOutput(changed: Option<seq<string>>, showError: bool)

  /** A click on an option button: the error flag is cleared and the new
      selection is reported. */
  function ControlClick(selected: seq<string>, option: string, maxSelection: int): (r: ControlOutput)
    ensures !r.showError && r.changed.Some?
    ensures r.changed == Some(HandleSelection(selected, option, maxSelection))
    ensures maxSelection == 1 ==> r.changed.value == [option]
    ensures maxSelection > 1 ==> (option in r.changed.value <==> option !in selected)
  {
    ControlOutput(Some(HandleSelection(selected, option, maxSelection)), false)
  }

  /** The control's shortcut listener: while focused, a key selects the first
      option whose shortcut matches; any other key changes nothing. */
  function ControlShortcut(isFocused: bool, options: seq<Choice>, selected: seq<string>,
                           showError: bool, key: string, maxSelection: int): (r: ControlOutput)
    ensures !isFocused || ShortcutIndex(options, key).None? ==> r == ControlOutput(None, showError)
    ensures isFocused && ShortcutIndex(options, key).Some? ==>
              var i := ShortcutIndex(options, key).value;
              i < |options| && r == ControlClick(selected, options[i].name, maxSelection)
  {
    if !isFocused then ControlOutput(None, showError)
    else match ShortcutIndex(options, key)
      case None => ControlOutput(None, showError)
      case Some(i) => ControlClick(selected, options[i].name, maxSelection)
  }

  /** The control's Enter listener: the error flag ends up set exactly when
      fewer than `minSelection` options are chosen; nothing is reported. */
  function ControlEnter(selected: seq<string>, showError: bool, key: string, minSelection: int): (r: ControlOutput)
    ensures r.changed.None?
    ensures key == "Enter" ==> (r.showError <==> |selected| < minSelection)
    ensures key != "Enter" ==> r.showError == showError
  {
    if key == "Enter" then ControlOutput(None, |selected| < minSelection)
    else ControlOutput(None, showError)
  }

  /** The standalone LabelCategory component: its stored selection and the
      `onSelectionChange(category, selection)` notification, if one was sent. */
  datatype Notice = Notice(category: string, selection: seq<string>)
  datatype LabelCategoryStep = LabelCategoryStep(selected: seq<string>, notice: Option<Notice>)

  /** A click: the selection is updated by the rule the multi-select control
      uses (LabelCategory repeats it word for word) and the callback receives
      exactly the newly stored selection. */
  function LabelCategorySelect(selected: seq<string>, category: string, option: string,
                               maxSelection: int): (r: LabelCategoryStep)
    ensures r.notice == Some(Notice(category, r.selected))
    ensures r.selected == ControlClick(selected, option, maxSelection).changed.value
    ensures maxSelection == 1 ==> r.selected == [option]
    ensures maxSelection != 1 && option in selected ==> r.selected == Without(selected, option)
    ensures maxSelection > 1 && option !in selected ==>
              |r.selected| > 0 && r.selected[|r.selected| - 1] == option &&
              r.selected[..|r.selected| - 1] == selected[|selected| + 1 - |r.selected|..]
  {
    var next := HandleSelection(selected, option, maxSelection);
    LabelCategoryStep(next, Some(Notice(category, next)))
  }

  /** A key press (LabelCategory listens whether or not it has focus): a key
      with no matching shortcut leaves the selection unchanged and sends
      nothing. */
  function LabelCategoryKey(selected: seq<string>, category: string, options: seq<Choice>,
                            key: string, maxSelection: int): (r: LabelCategoryStep)
    ensures ShortcutIndex(options, key).None? ==> r == LabelCategoryStep(selected, None)
    ensures ShortcutIndex(options, key).Some? ==>
              var i := ShortcutIndex(options, key).value;
              i < |options| && r == LabelCategorySelect(selected, category, options[i].name, maxSelection)
  {
    match ShortcutIndex(options, key)
    case None => LabelCategoryStep(selected, None)
    case Some(i) => LabelCategorySelect(selected, category, options[i].name, maxSelection)
  }
}
