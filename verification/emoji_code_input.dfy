/** The five-emoji class-code input (frontend/src/components/shared/EmojiCodeInput.jsx):
    reading emoji out of pasted text, the click, remove, paste, slot and
    backspace handlers, and the effect that keeps the active slot inside
    the filled part of the code. The value is a controlled prop; the model
    takes the parent to pass every `onChange` value straight back. Focus
    and blur are DOM effects and are not modelled. */
module EmojiCodeInput {
  import opened Util
  import opened Js

  /** `EMOJI_OPTIONS`, as code points: two of them carry the emoji
      presentation selector U+FE0F. */
  const Options: seq<string> := [
    "\U{1F575}\U{FE0F}", "\U{1F978}", "\U{1F9B8}", "\U{1F50D}", "\U{1F480}",
    "\U{1F648}", "\U{1F441}\U{FE0F}", "\U{1F977}", "\U{1F693}"
  ]

  /** The longest code the input holds. */
  const MaxLength := 5

  predicate StartsWith(s: string, o: string) {
    |o| <= |s| && s[..|o|] == o
  }

  predicate AllOptions(xs: seq<string>) {
    forall i :: 0 <= i < |xs| ==> xs[i] in Options
  }

  /** No option is empty, and no two options share their first code point,
      so at any position at most one option can match. */
  lemma OptionsDistinctHeads()
    ensures forall o :: o in Options ==> |o| >= 1
    ensures forall i, j :: 0 <= i < |Options| && 0 <= j < |Options| && Options[i][0] == Options[j][0] ==> i == j
  {
  }

  /** The first of `opts`, in order, that s starts with: the regular
      expression tries its alternatives left to right. */
  function FirstPrefix(s: string, opts: seq<string>): (r: Option<string>)
    ensures r.Some? ==> r.value in opts && StartsWith(s, r.value)
    ensures r.None? ==> forall o :: o in opts ==> !StartsWith(s, o)
  {
    if |opts| == 0 then None
    else if StartsWith(s, opts[0]) then Some(opts[0])
    else FirstPrefix(s, opts[1..])
  }

  /** All non-overlapping matches of `EMOJI_REGEX` (flags g and u) in a
      string: at each position the first matching option is taken and the
      scan resumes after it; otherwise it moves on one code point. */
  function Matches(s: string): (r: seq<string>)
    ensures AllOptions(r)
    decreases |s|
  {
    if |s| == 0 then []
    else match FirstPrefix(s, Options)
      case Some(o) =>
        OptionsDistinctHeads();
        [o] + Matches(s[|o|..])
      case None => Matches(s[1..])
  }

  /** `extractEmojis`: the first five matches (`null` from `match` gives
      the empty list). */
  function Extract(s: string): (r: seq<string>)
    ensures |r| <= MaxLength && AllOptions(r)
    ensures |r| == if |Matches(s)| < MaxLength then |Matches(s)| else MaxLength
    ensures r == Matches(s)[..|r|]
  {
    var m := Matches(s);
    if |m| > MaxLength then m[..MaxLength] else m
  }

  /** The text of a code: its emoji written one after another. */
  function Concat(xs: seq<string>): string {
    if |xs| == 0 then "" else xs[0] + Concat(xs[1..])
  }

  /** At the start of an option followed by anything, that option is the
      one matched. */
  lemma FirstPrefixOfOption(o: string, rest: string)
    requires o in Options
    ensures FirstPrefix(o + rest, Options) == Some(o)
  {
    OptionsDistinctHeads();
    var s := o + rest;
    var r := FirstPrefix(s, Options);
    assert StartsWith(s, o) by {
      assert s[..|o|] == o;
    }
    var i :| 0 <= i < |Options| && Options[i] == r.value;
    var j :| 0 <= j < |Options| && Options[j] == o;
    assert r.value[0] == s[0] == o[0];
  }

  /** Reading the text of a code gives the code back, whatever its length. */
  lemma {:induction false} MatchesOfConcat(xs: seq<string>)
    requires AllOptions(xs)
    ensures Matches(Concat(xs)) == xs
    decreases |xs|
  {
    if |xs| > 0 {
      var o := xs[0];
      var rest := Concat(xs[1..]);
      OptionsDistinctHeads();
      FirstPrefixOfOption(o, rest);
      assert (o + rest)[|o|..] == rest;
      MatchesOfConcat(xs[1..]);
    }
  }

  /** Pasting the text of a code of at most five emoji reads that code
      back; a longer one is cut to its first five. */
  lemma ExtractOfConcat(xs: seq<string>)
    requires AllOptions(xs)
    ensures Extract(Concat(xs)) == if |xs| <= MaxLength then xs else xs[..MaxLength]
  {
    MatchesOfConcat(xs);
  }

  /** Text in which no option occurs yields nothing. */
  lemma {:induction false} NoOptionNoMatch(s: string)
    requires forall i, o :: 0 <= i <= |s| && o in Options ==> !StartsWith(s[i..], o)
    ensures Extract(s) == []
    decreases |s|
  {
    if |s| > 0 {
      assert s[0..] == s;
      forall i, o | 0 <= i <= |s[1..]| && o in Options
        ensures !StartsWith(s[1..][i..], o)
      {
        assert s[1..][i..] == s[i + 1..];
      }
      NoOptionNoMatch(s[1..]);
    }
  }

  // ------------------------------------------------------------------
  // The component

  /** The code, the active slot and `prevValueLengthRef`. */
  datatype Widget = Widget(value: seq<string>, active: int, prevLen: int)

  function Min(a: int, b: int): int {
    if a <= b then a else b
  }

  /** The slot the cursor belongs in: the first empty one, or the last. */
  function NextSlot(value: seq<string>): int {
    Min(|value|, MaxLength - 1)
  }

  /** What the user can do. Slots are indexed 0 to 4. */
  datatype Event =
    | EmojiClick(emoji: string)
    | SlotRemove(index: int)
    | Paste(text: string)
    | SlotClick(index: int)
    | ContainerClick
    | Backspace

  /** `handleEmojiClick`: append unless disabled or full; the cursor moves
      to the next slot unless the code is now full (then the input blurs). */
  function EmojiClicked(w: Widget, emoji: string, disabled: bool): (r: Widget)
    ensures |r.value| <= Max(|w.value|, MaxLength)
    ensures disabled || |w.value| >= MaxLength ==> r == w
    ensures !disabled && |w.value| < MaxLength ==> r.value == w.value + [emoji]
  {
    if disabled || |w.value| >= MaxLength then w
    else
      var next := w.value + [emoji];
      if |next| >= MaxLength then w.(value := next)
      else Widget(next, NextSlot(next), w.prevLen)
  }

  function Max(a: int, b: int): int {
    if a >= b then a else b
  }

  /** `handleSlotRemove`: remove the emoji in a filled slot and pull the
      cursor back inside the code. */
  function SlotRemoved(w: Widget, index: int, disabled: bool): (r: Widget)
    ensures disabled || !(0 <= index < |w.value| && w.value[index] != "") ==> r == w
    ensures !disabled && 0 <= index < |w.value| && w.value[index] != "" ==>
              r.value == RemoveAt(w.value, index) && r.active <= NextSlot(r.value)
  {
    if disabled || !(0 <= index < |w.value| && w.value[index] != "") then w
    else
      var next := SpliceOne(w.value, index);
      Widget(next, Min(w.active, NextSlot(next)), w.prevLen)
  }

  /** `handlePaste`: replace the code with the emoji read from the text,
      unless none are found. */
  function Pasted(w: Widget, text: string, disabled: bool): (r: Widget)
    ensures disabled || |Extract(text)| == 0 ==> r == w
    ensures !disabled && |Extract(text)| > 0 ==> r.value == Extract(text)
  {
    var emojis := Extract(text);
    if disabled || |emojis| == 0 then w
    else if |emojis| >= MaxLength then w.(value := emojis)
    else Widget(emojis, NextSlot(emojis), w.prevLen)
  }

  /** `handleSlotFocus`: the cursor goes to the slot clicked. */
  function SlotFocused(w: Widget, index: int, disabled: bool): Widget {
    if disabled then w else w.(active := index)
  }

  /** `handleContainerClick`: the cursor goes to the next slot. */
  function ContainerClicked(w: Widget, disabled: bool): (r: Widget)
    ensures r.value == w.value
    ensures !disabled ==> r.active == NextSlot(w.value)
  {
    if disabled then w else w.(active := NextSlot(w.value))
  }

  /** `handleHiddenInputKeyDown` for Backspace: drop the last emoji. */
  function BackspacePressed(w: Widget, disabled: bool): (r: Widget)
    ensures !disabled && |w.value| > 0 ==> r.value == w.value[..|w.value| - 1] && r.active == w.active
    ensures disabled || |w.value| == 0 ==> r == w
  {
    if disabled || |w.value| == 0 then w else w.(value := w.value[..|w.value| - 1])
  }

  /** The effect on `[value.length, activeIndex]`: a longer code moves the
      cursor to the next slot; a shorter one, or a cursor past the end,
      pulls it back. Run after every render: when neither dependency
      changed it does nothing on the states the component reaches. */
  function Effect(w: Widget): (r: Widget)
    ensures r.value == w.value && r.prevLen == |w.value|
    ensures r.active <= w.active || r.active == NextSlot(w.value)
  {
    var len := |w.value|;
    var active :=
      if len > w.prevLen then NextSlot(w.value)
      else if len < w.prevLen || w.active > len then Min(w.active, NextSlot(w.value))
      else w.active;
    Widget(w.value, active, len)
  }

  /** The handler for an event as written: a click on a slot reaches
      `handleSlotFocus` and then, bubbling up, `handleContainerClick`,
      whose update wins. A click on an emoji button bubbles up to the
      container too; that click sets the cursor from the length before the
      emoji was added, and the effect then moves it to the next slot
      anyway, so the state after `Effect` is the same and the model leaves
      that second update out. */
  function HandleAsWritten(w: Widget, e: Event, disabled: bool): Widget {
    match e
    case EmojiClick(emoji) => EmojiClicked(w, emoji, disabled)
    case SlotRemove(i) => SlotRemoved(w, i, disabled)
    case Paste(text) => Pasted(w, text, disabled)
    case SlotClick(i) => ContainerClicked(SlotFocused(w, i, disabled), disabled)
    case ContainerClick => ContainerClicked(w, disabled)
    case Backspace => BackspacePressed(w, disabled)
  }

  /** The handler with the slot click focusing the slot clicked. */
  function Handle(w: Widget, e: Event, disabled: bool): Widget {
    match e
    case SlotClick(i) => SlotFocused(w, i, disabled)
    case _ => HandleAsWritten(w, e, disabled)
  }

  /** One event followed by the effect. */
  function Step(w: Widget, e: Event, disabled: bool): Widget {
    Effect(Handle(w, e, disabled))
  }

  function StepAsWritten(w: Widget, e: Event, disabled: bool): Widget {
    Effect(HandleAsWritten(w, e, disabled))
  }

  /** What every render shows: at most five emoji, the cursor on a slot no
      later than the next one to fill, and the length ref up to date. */
  predicate Valid(w: Widget) {
    && |w.value| <= MaxLength
    && 0 <= w.active <= NextSlot(w.value)
    && w.prevLen == |w.value|
  }

  predicate EventInRange(e: Event) {
    e.SlotClick? ==> 0 <= e.index < MaxLength
  }

  /** Every event keeps the component valid: the code never grows past
      five and the cursor is clamped after each update. */
  lemma StepKeepsValid(w: Widget, e: Event, disabled: bool)
    requires Valid(w) && EventInRange(e)
    ensures Valid(Step(w, e, disabled))
  {
  }

  /** The same holds of the handlers as written. */
  lemma StepAsWrittenKeepsValid(w: Widget, e: Event, disabled: bool)
    requires Valid(w) && EventInRange(e)
    ensures Valid(StepAsWritten(w, e, disabled))
  {
  }

  /** The code only ever holds emoji from the options, provided the clicked
      emoji is one (the buttons offer only those). */
  lemma StepKeepsOptions(w: Widget, e: Event, disabled: bool)
    requires AllOptions(w.value)
    requires e.EmojiClick? ==> e.emoji in Options
    ensures AllOptions(Step(w, e, disabled).value)
  {
    match e
    case SlotRemove(i) =>
      var r := Step(w, e, disabled).value;
      if r != w.value {
        forall k | 0 <= k < |r| ensures r[k] in Options {
          assert r[k] == if k < i then w.value[k] else w.value[k + 1];
        }
      }
    case Backspace =>
      var r := Step(w, e, disabled).value;
      forall k | 0 <= k < |r| ensures r[k] in Options {
        assert r[k] == w.value[k];
      }
    case _ =>
  }

  /** Running the effect a second time, as React does after it changes the
      cursor, changes nothing more. */
  lemma EffectSettles(w: Widget)
    ensures Effect(Effect(w)) == Effect(w)
  {
  }

  /** With the slot click corrected, clicking a slot no later than the next
      one to fill puts the cursor there. */
  lemma SlotClickFocusesSlot(w: Widget, i: int)
    requires Valid(w) && 0 <= i <= NextSlot(w.value)
    ensures Step(w, SlotClick(i), false).active == i
    ensures Step(w, SlotClick(i), false).value == w.value
  {
  }

  /** As written, the bubbling container click overrides the slot click:
      with three emoji entered, clicking the first slot leaves the cursor
      on the fourth. Inside a filled slot the click lands on the remove
      button, which stops propagation, so this path is reached through the
      slot's border; on an empty slot past the code the effect clamps the
      cursor to the same place either way. */
  lemma SlotClickAsWrittenIgnoresSlot()
    ensures var w := Widget(["\U{1F978}", "\U{1F9B8}", "\U{1F50D}"], 3, 3);
      Valid(w) && StepAsWritten(w, SlotClick(0), false).active == 3
  {
  }
}
