/** The tappable answer list (lib/clown-club/phaser/ui/MultipleChoice.ts):
    which options are selected, in insertion order as the JavaScript Set
    keeps them, and when the `onSelect` callback fires. Colours and tweens
    are left out. */
module MultipleChoice {
  import opened Wrappers
  import opened Seqs

  datatype ChoiceOption = ChoiceOption(id: string, text: string)

  datatype Choice = Choice(options: seq<ChoiceOption>, multiSelect: bool, disabled: bool, showLabels: bool, selected: seq<string>)

  /** Defaults: labels on, single select, enabled, nothing selected. */
  function Create(options: seq<ChoiceOption>, multiSelect: Option<bool>, disabled: Option<bool>, showLabels: Option<bool>): (c: Choice)
    ensures c.selected == [] && c.options == options
    ensures c.showLabels <==> showLabels != Some(false)
    ensures c.multiSelect <==> multiSelect == Some(true)
    ensures c.disabled <==> disabled == Some(true)
  {
    Choice(options, multiSelect.GetOr(false), disabled.GetOr(false), showLabels.GetOr(true), [])
  }

  predicate Known(c: Choice, id: string) {
    exists i :: 0 <= i < |c.options| && c.options[i].id == id
  }

  /** `selectOption`: unknown ids are ignored; multi-select toggles; single
      select leaves only this id. Returns the id passed to `onSelect`. */
  function SelectOption(c: Choice, id: string): (r: (Choice, Option<string>))
    ensures !Known(c, id) ==> r == (c, None)
    ensures Known(c, id) ==> r.1 == Some(id) && r.0 == c.(selected := r.0.selected)
    ensures Known(c, id) && c.multiSelect ==> r.0.selected == Toggle(c.selected, id)
    ensures Known(c, id) && !c.multiSelect ==> r.0.selected == [id]
  {
    if !Known(c, id) then (c, None)
    else if c.multiSelect then (c.(selected := Toggle(c.selected, id)), Some(id))
    else (c.(selected := [id]), Some(id))
  }

  /** `pointerdown`: nothing at all while disabled. */
  function Tap(c: Choice, id: string): (r: (Choice, Option<string>))
    ensures c.disabled ==> r == (c, None)
    ensures !c.disabled ==> r == SelectOption(c, id)
  {
    if c.disabled then (c, None) else SelectOption(c, id)
  }

  /** Multi-select: the tapped id flips, every other selection stays, and
      the callback fires even on a deselect. */
  lemma MultiSelectToggles(c: Choice, id: string)
    requires Known(c, id) && c.multiSelect && !c.disabled && Distinct(c.selected)
    ensures var r := Tap(c, id);
      r.1 == Some(id)
      && (id in r.0.selected <==> id !in c.selected)
      && (forall other :: other != id ==> (other in r.0.selected <==> other in c.selected))
      && Distinct(r.0.selected)
  {
    ToggleFlips(c.selected, id);
  }

  /** `getSelectedIds`. */
  function SelectedIds(c: Choice): seq<string> { c.selected }

  /** `getSelectedId`: the first selected id, or null when none. */
  function SelectedId(c: Choice): (r: Option<string>)
    ensures r.None? <==> c.selected == []
    ensures r.Some? ==> r.value in c.selected && r.value == c.selected[0]
  {
    if |c.selected| > 0 then Some(c.selected[0]) else None
  }

  /** In multi-select, tapping anything but the first selected id keeps the
      first selected id: the Set's insertion order survives other toggles. */
  lemma FirstSelectionKept(c: Choice, id: string)
    requires Known(c, id) && c.multiSelect && !c.disabled && |c.selected| > 0 && id != c.selected[0]
    ensures SelectedId(Tap(c, id).0) == SelectedId(c)
  {
    if id in c.selected {
      var i := IndexOf(c.selected, id);
      assert i > 0;
      assert RemoveFirst(c.selected, id)[0] == c.selected[0];
    } else {
      assert (c.selected + [id])[0] == c.selected[0];
    }
  }

  /** After a single-select tap the selected id is the one tapped. */
  lemma SingleSelectThenGet(c: Choice, id: string)
    requires Known(c, id) && !c.multiSelect && !c.disabled
    ensures SelectedId(Tap(c, id).0) == Some(id)
  {
  }

  function Reset(c: Choice): (r: Choice)
    ensures r.selected == [] && SelectedId(r).None?
    ensures r.options == c.options && r.multiSelect == c.multiSelect && r.disabled == c.disabled
  {
    c.(selected := [])
  }

  function SetDisabled(c: Choice, disabled: bool): (r: Choice)
    ensures r.disabled == disabled && r.selected == c.selected
  {
    c.(disabled := disabled)
  }

  /** `String.fromCharCode(65 + i)` for codes below the surrogate range;
      the rest of the UTF-16 code space has no `char` here and shows as U+FFFD. */
  function Label(i: nat): (c: char)
    ensures 65 + i < 0xD800 ==> c as int == 65 + i
  {
    if 65 + i < 0xD800 then (65 + i) as char else '\U{FFFD}'
  }

  /** Option i's text: prefixed with its letter and ". " when labels are on. */
  function DisplayText(c: Choice, i: nat): (t: string)
    requires i < |c.options|
    ensures c.showLabels ==> t == [Label(i)] + ". " + c.options[i].text
    ensures !c.showLabels ==> t == c.options[i].text
  {
    if c.showLabels then [Label(i)] + ". " + c.options[i].text else c.options[i].text
  }

  /** The first four options read A., B., C., D. */
  lemma FirstLabels(c: Choice)
    requires c.showLabels && |c.options| >= 4
    ensures DisplayText(c, 0)[0] == 'A' && DisplayText(c, 1)[0] == 'B'
    ensures DisplayText(c, 2)[0] == 'C' && DisplayText(c, 3)[0] == 'D'
  {
  }
}
