/** The Windows text injector (`TextSender.SendText` in
    platforms/windows/GoNhanh/Core/TextSender.cs): a replacement becomes one
    list of keyboard `INPUT`s, Backspace presses first and then one Unicode
    press per UTF-16 code unit, handed to `SendInput` in a single batch. */
module WinTextSender {
  import opened Utf16
  import opened EngineFfi

  const InputKeyboard: int := 1
  const KeyEventKeyUp: bv32 := 0x0002
  const KeyEventUnicode: bv32 := 0x0004
  const VkBack: u16 := 0x08

  /** One keyboard `INPUT`: its type, `wVk`, `wScan`, `dwFlags`, `time` and
      `dwExtraInfo`. */
  datatype Input = Input(kind: int, vk: u16, scan: u16, flags: bv32, time: int, extraInfo: int)

  function BackDown(marker: int): Input { Input(InputKeyboard, VkBack, 0, 0, 0, marker) }
  function BackUp(marker: int): Input { Input(InputKeyboard, VkBack, 0, KeyEventKeyUp, 0, marker) }
  function UnicodeDown(c: Unit, marker: int): Input { Input(InputKeyboard, 0, c, KeyEventUnicode, 0, marker) }
  function UnicodeUp(c: Unit, marker: int): Input {
    Input(InputKeyboard, 0, c, KeyEventUnicode | KeyEventKeyUp, 0, marker)
  }

  /** The inputs of `n` Backspace presses. */
  function BackInputs(n: nat, marker: int): seq<Input> {
    if n == 0 then [] else BackInputs(n - 1, marker) + [BackDown(marker), BackUp(marker)]
  }

  /** The inputs that type `text`, one press per code unit. */
  function UnicodeInputs(text: seq<Unit>, marker: int): seq<Input> {
    if text == [] then []
    else
      var c := text[|text| - 1];
      UnicodeInputs(text[..|text| - 1], marker) + [UnicodeDown(c, marker), UnicodeUp(c, marker)]
  }

  /** The loop bound `i < backspaces` runs no iteration for a negative count. */
  function Presses(backspaces: int): nat { if backspaces > 0 then backspaces else 0 }

  /** The whole `inputs` list. */
  function Inputs(text: seq<Unit>, backspaces: int, marker: int): seq<Input> {
    BackInputs(Presses(backspaces), marker) + UnicodeInputs(text, marker)
  }

  /** The `SendInput` batches: the list once, when it is not empty. */
  function Batches(text: seq<Unit>, backspaces: int, marker: int): seq<seq<Input>> {
    var inputs := Inputs(text, backspaces, marker);
    if |inputs| > 0 then [inputs] else []
  }

  /** `SendText`: returns the batches handed to `SendInput`; `marker` is the
      injected-key tag the hook reads back to skip its own events. */
  method SendText(text: seq<Unit>, backspaces: int, marker: int) returns (batches: seq<seq<Input>>)
    ensures batches == Batches(text, backspaces, marker)
  {
    if text == [] && backspaces == 0 {
      return [];
    }
    var inputs: seq<Input> := [];
    var i := 0;
    while i < backspaces
      invariant 0 <= i <= Presses(backspaces)
      invariant inputs == BackInputs(i, marker)
    {
      inputs := inputs + [BackDown(marker)];
      inputs := inputs + [BackUp(marker)];
      i := i + 1;
    }
    assert i == Presses(backspaces);
    for k := 0 to |text|
      invariant inputs == BackInputs(i, marker) + UnicodeInputs(text[..k], marker)
    {
      var c := text[k];
      assert text[..k + 1][..k] == text[..k];
      inputs := inputs + [UnicodeDown(c, marker)];
      inputs := inputs + [UnicodeUp(c, marker)];
    }
    assert text[..|text|] == text;
    batches := [];
    if |inputs| > 0 {
      batches := batches + [inputs];
    }
  }

  // ----- Layout -----

  /** Input `j` of the list for `n` Backspaces and `text`. */
  function InputSlot(n: nat, text: seq<Unit>, marker: int, j: nat): Input
    requires j < 2 * n + 2 * |text|
  {
    if j < 2 * n then
      if j % 2 == 0 then BackDown(marker) else BackUp(marker)
    else
      var k := (j - 2 * n) / 2;
      if (j - 2 * n) % 2 == 0 then UnicodeDown(text[k], marker) else UnicodeUp(text[k], marker)
  }

  lemma {:induction false} BackInputsLayout(n: nat, text: seq<Unit>, marker: int)
    ensures |BackInputs(n, marker)| == 2 * n
    ensures forall j :: 0 <= j < 2 * n ==> BackInputs(n, marker)[j] == InputSlot(n, text, marker, j)
  {
    if n > 0 {
      BackInputsLayout(n - 1, text, marker);
      var prev := BackInputs(n - 1, marker);
      var b := 2 * (n - 1);
      assert b % 2 == 0 && (b + 1) % 2 == 1;
      forall j | 0 <= j < 2 * n
        ensures BackInputs(n, marker)[j] == InputSlot(n, text, marker, j)
      {
        if j < b {
          assert InputSlot(n - 1, text, marker, j) == InputSlot(n, text, marker, j);
        } else {
          assert j == b || j == b + 1;
        }
      }
    }
  }

  lemma {:induction false} UnicodeInputsLayout(n: nat, text: seq<Unit>, k: nat, marker: int)
    requires k <= |text|
    ensures |UnicodeInputs(text[..k], marker)| == 2 * k
    ensures forall j :: 0 <= j < 2 * k ==>
      UnicodeInputs(text[..k], marker)[j] == InputSlot(n, text, marker, 2 * n + j)
  {
    if k > 0 {
      UnicodeInputsLayout(n, text, k - 1, marker);
      var t := text[..k];
      assert t[..|t| - 1] == text[..k - 1];
      assert t[|t| - 1] == text[k - 1];
      var prev := UnicodeInputs(text[..k - 1], marker);
      var b := 2 * (k - 1);
      assert (2 * n + b - 2 * n) / 2 == k - 1 && (2 * n + b - 2 * n) % 2 == 0;
      assert (2 * n + b + 1 - 2 * n) / 2 == k - 1 && (2 * n + b + 1 - 2 * n) % 2 == 1;
      forall j | 0 <= j < 2 * k
        ensures UnicodeInputs(t, marker)[j] == InputSlot(n, text, marker, 2 * n + j)
      {
        if j >= b {
          assert j == b || j == b + 1;
        }
      }
    }
  }

  /** The list holds `2*backspaces` Backspace inputs, down (flags 0) and up
      (KEYUP) alternating, then for each code unit of the text, in order, a
      down with UNICODE and an up with UNICODE|KEYUP, both with that unit as
      `wScan` and no virtual key. */
  lemma InputsLayout(text: seq<Unit>, backspaces: int, marker: int)
    ensures |Inputs(text, backspaces, marker)| == 2 * Presses(backspaces) + 2 * |text|
    ensures forall j :: 0 <= j < 2 * Presses(backspaces) + 2 * |text| ==>
      Inputs(text, backspaces, marker)[j] == InputSlot(Presses(backspaces), text, marker, j)
  {
    var n := Presses(backspaces);
    BackInputsLayout(n, text, marker);
    UnicodeInputsLayout(n, text, |text|, marker);
    assert text[..|text|] == text;
    var back, uni := BackInputs(n, marker), UnicodeInputs(text, marker);
    forall j | 0 <= j < 2 * n + 2 * |text|
      ensures (back + uni)[j] == InputSlot(n, text, marker, j)
    {
      if j >= 2 * n {
        assert (back + uni)[j] == uni[j - 2 * n];
      }
    }
  }

  /** Every input carries the injected-key marker and is a keyboard input. */
  lemma MarkerOnEveryInput(text: seq<Unit>, backspaces: int, marker: int)
    ensures forall inp :: inp in Inputs(text, backspaces, marker) ==>
      inp.extraInfo == marker && inp.kind == InputKeyboard && inp.time == 0
  {
    InputsLayout(text, backspaces, marker);
  }

  /** No Backspace is sent after any Unicode input. */
  lemma NoBackspaceAfterUnicode(text: seq<Unit>, backspaces: int, marker: int, i: nat, j: nat)
    requires i < j < |Inputs(text, backspaces, marker)|
    requires Inputs(text, backspaces, marker)[i].flags & KeyEventUnicode != 0
    ensures Inputs(text, backspaces, marker)[j].vk != VkBack
  {
    InputsLayout(text, backspaces, marker);
    var n := Presses(backspaces);
    var inputs := Inputs(text, backspaces, marker);
    assert inputs[i] == InputSlot(n, text, marker, i);
    assert inputs[j] == InputSlot(n, text, marker, j);
  }

  /** Nothing is sent for an empty text with no Backspace. */
  lemma EmptyRequestSendsNothing(text: seq<Unit>, backspaces: int, marker: int)
    ensures Batches(text, backspaces, marker) == [] <==> text == [] && backspaces <= 0
  {
    InputsLayout(text, backspaces, marker);
  }

  // ----- Reading the list back -----

  /** The code units the list types: the `wScan` of each Unicode key-down. */
  function Typed(inputs: seq<Input>): seq<Unit> {
    if inputs == [] then []
    else
      var last := inputs[|inputs| - 1];
      Typed(inputs[..|inputs| - 1]) + (if last.flags == KeyEventUnicode then [last.scan] else [])
  }

  /** How many Backspace key-downs the list holds. */
  function Deleted(inputs: seq<Input>): nat {
    if inputs == [] then 0
    else
      var last := inputs[|inputs| - 1];
      Deleted(inputs[..|inputs| - 1]) + (if last.vk == VkBack && last.flags == 0 then 1 else 0)
  }

  lemma {:induction false} ReadAppend(a: seq<Input>, b: seq<Input>)
    ensures Typed(a + b) == Typed(a) + Typed(b)
    ensures Deleted(a + b) == Deleted(a) + Deleted(b)
    decreases |b|
  {
    if b == [] {
      assert a + b == a;
    } else {
      var b' := b[..|b| - 1];
      assert (a + b)[..|a + b| - 1] == a + b';
      assert (a + b)[|a + b| - 1] == b[|b| - 1];
      ReadAppend(a, b');
    }
  }

  lemma {:induction false} ReadBackInputs(n: nat, marker: int)
    ensures Typed(BackInputs(n, marker)) == [] && Deleted(BackInputs(n, marker)) == n
  {
    if n > 0 {
      ReadBackInputs(n - 1, marker);
      var pair := [BackDown(marker), BackUp(marker)];
      ReadAppend(BackInputs(n - 1, marker), pair);
      assert pair[..1] == [BackDown(marker)];
      assert [BackDown(marker)][..0] == [];
      assert KeyEventKeyUp != KeyEventUnicode;
      assert Typed([BackDown(marker)]) == [] && Deleted([BackDown(marker)]) == 1;
      assert Typed(pair) == [] && Deleted(pair) == 1;
    }
  }

  lemma {:induction false} ReadUnicodeInputs(text: seq<Unit>, marker: int)
    ensures Typed(UnicodeInputs(text, marker)) == text && Deleted(UnicodeInputs(text, marker)) == 0
    decreases |text|
  {
    if text != [] {
      var c := text[|text| - 1];
      var pair := [UnicodeDown(c, marker), UnicodeUp(c, marker)];
      ReadUnicodeInputs(text[..|text| - 1], marker);
      ReadAppend(UnicodeInputs(text[..|text| - 1], marker), pair);
      assert pair[..1] == [UnicodeDown(c, marker)];
      assert [UnicodeDown(c, marker)][..0] == [];
      assert KeyEventUnicode | KeyEventKeyUp != KeyEventUnicode;
      assert Typed([UnicodeDown(c, marker)]) == [c] && Deleted([UnicodeDown(c, marker)]) == 0;
      assert Typed(pair) == [c] && Deleted(pair) == 0;
      assert text[..|text| - 1] + [c] == text;
    }
  }

  /** The list deletes exactly the requested characters and types exactly
      the text, unit for unit. */
  lemma InputsRoundTrip(text: seq<Unit>, backspaces: int, marker: int)
    ensures Typed(Inputs(text, backspaces, marker)) == text
    ensures Deleted(Inputs(text, backspaces, marker)) == Presses(backspaces)
  {
    var n := Presses(backspaces);
    ReadBackInputs(n, marker);
    ReadUnicodeInputs(text, marker);
    ReadAppend(BackInputs(n, marker), UnicodeInputs(text, marker));
  }
}
