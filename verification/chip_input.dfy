/** The chip list input (src/frontend/components/shared/ChipInput.jsx):
    Enter turns the typed text into a chip unless it is already there,
    Backspace in an empty box drops the last chip, and a chip's × button
    removes it. The list is a controlled prop; the model takes the parent
    to pass every `onChange` value straight back. */
module ChipInput {
  import opened Util
  import opened Js

  /** The chips and the text in the box. */
  datatype Chips = Chips(value: seq<string>, input: string)

  /** The key presses the handler reacts to, and typing into the box. */
  datatype Event = Enter | Backspace | Type(text: string) | RemoveChip(index: int)

  /** Enter: a non-blank box adds its trimmed text unless that chip exists,
      and is emptied either way; a blank box changes nothing. */
  function EnterPressed(c: Chips): (r: Chips)
    ensures IsBlank(c.input) ==> r == c
    ensures !IsBlank(c.input) ==> r.input == ""
    ensures !IsBlank(c.input) && Trim(c.input) !in c.value ==> r.value == c.value + [Trim(c.input)]
    ensures Trim(c.input) in c.value ==> r.value == c.value
  {
    TrimEmptyIffBlank(c.input);
    var t := Trim(c.input);
    if t == "" then c
    else if t in c.value then Chips(c.value, "")
    else Chips(c.value + [t], "")
  }

  /** Backspace in an empty box drops the last chip. With text in the box
      the key edits the text, which the `Type` event covers. */
  function BackspacePressed(c: Chips): (r: Chips)
    ensures c.input == "" && |c.value| > 0 ==> r == Chips(c.value[..|c.value| - 1], "")
    ensures c.input != "" || |c.value| == 0 ==> r == c
  {
    if c.input == "" && |c.value| > 0 then c.(value := c.value[..|c.value| - 1]) else c
  }

  /** `removeChip(index)`: splice one element out of a copy. */
  function ChipRemoved(c: Chips, index: int): (r: Chips)
    ensures r.input == c.input
    ensures 0 <= index < |c.value| ==> r.value == RemoveAt(c.value, index)
    ensures index >= |c.value| ==> r == c
  {
    c.(value := SpliceOne(c.value, index))
  }

  function Step(c: Chips, e: Event): Chips {
    match e
    case Enter => EnterPressed(c)
    case Backspace => BackspacePressed(c)
    case Type(text) => c.(input := text)
    case RemoveChip(i) => ChipRemoved(c, i)
  }

  /** Enter adds a chip exactly when the trimmed text is non-empty and not
      yet a chip, and then adds exactly that text at the end. */
  lemma EnterAddsIffNew(c: Chips)
    ensures var r := EnterPressed(c);
      (|r.value| == |c.value| + 1 <==> !IsBlank(c.input) && Trim(c.input) !in c.value)
      && (|r.value| != |c.value| + 1 ==> r.value == c.value)
  {
  }

  /** Pressing Enter twice is pressing it once: the box is empty after the
      first press. */
  lemma EnterIdempotent(c: Chips)
    ensures EnterPressed(EnterPressed(c)) == EnterPressed(c)
  {
    var r := EnterPressed(c);
    if !IsBlank(c.input) {
      assert IsBlank(r.input);
    }
  }

  /** Removing the chip at an index keeps the other chips in order. */
  lemma RemoveChipKeepsOrder(c: Chips, index: int)
    requires 0 <= index < |c.value|
    ensures var r := ChipRemoved(c, index).value;
      |r| == |c.value| - 1
      && (forall k :: 0 <= k < index ==> r[k] == c.value[k])
      && (forall k :: index <= k < |r| ==> r[k] == c.value[k + 1])
  {
  }

  /** What the list holds between events: distinct, non-empty chips with no
      white space at either end. */
  predicate WellFormed(value: seq<string>) {
    NoDuplicates(value) && forall k :: 0 <= k < |value| ==> Tidy(value[k])
  }

  predicate Tidy(chip: string) {
    chip != "" && !IsSpace(chip[0]) && !IsSpace(chip[|chip| - 1])
  }

  /** Every event keeps the list well formed: in particular Enter never
      adds a duplicate chip. */
  lemma StepKeepsWellFormed(c: Chips, e: Event)
    requires WellFormed(c.value)
    ensures WellFormed(Step(c, e).value)
  {
    var r := Step(c, e).value;
    match e
    case Enter =>
      EnterKeepsWellFormed(c);
    case Backspace =>
      if r != c.value {
        assert forall k :: 0 <= k < |r| ==> r[k] == c.value[k];
      }
    case RemoveChip(i) =>
      if 0 <= i < |c.value| {
        RemoveAtKeepsWellFormed(c.value, i);
      } else if -|c.value| <= i < 0 {
        RemoveAtKeepsWellFormed(c.value, |c.value| + i);
      }
    case Type(_) =>
  }

  /** Enter never adds a duplicate, a blank chip or a chip with white
      space at either end. */
  lemma EnterKeepsWellFormed(c: Chips)
    requires WellFormed(c.value)
    ensures WellFormed(EnterPressed(c).value)
  {
    if !IsBlank(c.input) && Trim(c.input) !in c.value {
      TrimmedChipIsTidy(c.input);
      AppendKeepsWellFormed(c.value, Trim(c.input));
    }
  }

  /** The trimmed text of a non-blank box is a tidy chip. */
  lemma TrimmedChipIsTidy(input: string)
    requires !IsBlank(input)
    ensures Tidy(Trim(input))
  {
    TrimEmptyIffBlank(input);
    TrimHasNoOuterSpace(input);
  }

  /** Appending a new tidy chip keeps the list well formed. */
  lemma AppendKeepsWellFormed(value: seq<string>, t: string)
    requires WellFormed(value) && Tidy(t) && t !in value
    ensures WellFormed(value + [t])
  {
    var r := value + [t];
    forall i, j | 0 <= i < j < |r| ensures r[i] != r[j] {
      if j == |value| {
        assert r[i] == value[i];
      }
    }
    forall k | 0 <= k < |r| ensures Tidy(r[k]) {
      if k < |value| {
        assert r[k] == value[k];
      }
    }
  }

  lemma RemoveAtKeepsWellFormed(s: seq<string>, i: nat)
    requires i < |s| && WellFormed(s)
    ensures WellFormed(RemoveAt(s, i))
  {
    var r := RemoveAt(s, i);
    forall a, b | 0 <= a < b < |r| ensures r[a] != r[b] {
      var a', b' := if a < i then a else a + 1, if b < i then b else b + 1;
      assert r[a] == s[a'] && r[b] == s[b'];
    }
    forall k | 0 <= k < |r| ensures r[k] == s[if k < i then k else k + 1] {
    }
  }
}
