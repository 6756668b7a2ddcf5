/** The Windows engine client (`RustBridge` and `ImeResult` in
    platforms/windows/GoNhanh/Core/RustBridge.cs): one key call through the
    engine, the copy of the native struct into a managed result, and the
    conversion of that result into a .NET string. */
module WinBridge {
  import opened Wrappers
  import opened Utf16
  import opened EngineFfi
  import opened WinKeys

  /** The C# `NativeResult` declares `fixed uint chars[64]`. */
  const WinCapacity: nat := 64

  /** The managed `ImeResult`: the action byte as the enum cast keeps it,
      the backspace and count bytes, and the copied code values. */
  datatype ImeResult = ImeResult(action: byte, backspace: byte, count: byte, chars: seq<u32>)

  /** `ImeResult.Empty`: no action, nothing to delete, no characters. */
  const Empty := ImeResult(ActionNone, 0, 0, [])

  /** The managed copy of a native struct: one slot per `count`, holding the
      inline value where the 64-entry array has one and 0 beyond it. */
  function Copied(n: NativeResult): (r: ImeResult)
    requires |n.chars| == WinCapacity
    ensures r.action == n.action && r.backspace == n.backspace && r.count == n.count
    ensures |r.chars| == n.count
    ensures forall i :: 0 <= i < n.count && i < WinCapacity ==> r.chars[i] == n.chars[i]
    ensures forall i :: WinCapacity <= i < n.count ==> r.chars[i] == 0
  {
    ImeResult(n.action, n.backspace, n.count,
              seq(n.count, i requires 0 <= i < n.count => if i < WinCapacity then n.chars[i] else 0))
  }

  /** The result `FromNative` builds for a (possibly null) struct pointer. */
  function Managed(native: Option<NativeResult>): ImeResult
    requires HasCapacity(native, WinCapacity)
  {
    match native
    case None => Empty
    case Some(n) => Copied(n)
  }

  /** `ImeResult.FromNative`: a null pointer gives `Empty`; otherwise a fresh
      array of `count` slots is filled for `i < count && i < 64`. */
  method FromNative(native: Option<NativeResult>) returns (r: ImeResult)
    requires HasCapacity(native, WinCapacity)
    ensures r == Managed(native)
  {
    if native.None? {
      return Empty;
    }
    var n := native.value;
    var count := n.count as int;
    var chars := new u32[count](_ => 0);
    var i := 0;
    while i < count && i < WinCapacity
      invariant 0 <= i <= count && i <= WinCapacity
      invariant forall j :: 0 <= j < i ==> chars[j] == n.chars[j]
      invariant forall j :: i <= j < count ==> chars[j] == 0
    {
      chars[i] := n.chars[i];
      i := i + 1;
    }
    r := ImeResult(n.action, n.backspace, n.count, chars[..]);
    assert r.chars == Copied(n).chars;
  }

  /** `ProcessKey`: translates the virtual key to a macOS keycode, calls the
      engine without Ctrl, and copies the reply; `freed` counts the
      `ime_free` in the `finally`, which runs once after a non-null pointer. */
  method ProcessKey(engine: Engine, keycode: u16, shift: bool, capslock: bool)
    returns (r: ImeResult, request: KeyRequest, freed: nat)
    requires HasCapacity(engine(KeyRequest(VkToMacKey(keycode), capslock, false, shift)), WinCapacity)
    ensures request == KeyRequest(VkToMacKey(keycode), capslock, false, shift)
    ensures r == Managed(engine(request))
    ensures freed == (if engine(request).Some? then 1 else 0)
  {
    var macKey := VkToMacKey(keycode);
    request := KeyRequest(macKey, capslock, false, shift);
    var ptr := engine(request);
    if ptr.None? {
      return Empty, request, 0;
    }
    r := FromNative(ptr);
    freed := 1;
  }

  /** The code values of the first `count` slots that the array holds. */
  function Visible(r: ImeResult): (codes: seq<int>)
    ensures |codes| <= r.count && |codes| <= |r.chars|
  {
    r.chars[..if r.count <= |r.chars| then r.count else |r.chars|]
  }

  /** The codes that are not 0, in order: `GetText` skips the zeros. */
  function NonZero(codes: seq<int>): (cs: seq<int>)
    ensures |cs| <= |codes|
  {
    if codes == [] then []
    else (if codes[0] != 0 then [codes[0]] else []) + NonZero(codes[1..])
  }

  /** A code survives the filter iff it occurs and is not 0. */
  lemma {:induction false} NonZeroMembers(codes: seq<int>, c: int)
    ensures c in NonZero(codes) <==> c in codes && c != 0
  {
    if codes != [] {
      NonZeroMembers(codes[1..], c);
      assert codes == [codes[0]] + codes[1..];
    }
  }

  /** The filtered codes are all scalars iff the unfiltered ones are
      convertible. */
  lemma ConvertibleIffScalars(codes: seq<int>)
    ensures AllScalars(NonZero(codes)) <==> Convertible(codes)
  {
    forall c | c in codes && c != 0
      ensures c in NonZero(codes)
    {
      NonZeroMembers(codes, c);
    }
    forall c | c in NonZero(codes)
      ensures c in codes && c != 0
    {
      NonZeroMembers(codes, c);
    }
  }

  /** Every non-zero code is one `char.ConvertFromUtf32` accepts. */
  predicate Convertible(codes: seq<int>) {
    forall c :: c in codes && c != 0 ==> IsScalar(c)
  }

  /** The outcome of `GetText`: `None` when `char.ConvertFromUtf32` throws.
      A result with a count of 0 is the empty string; otherwise the string
      decodes to exactly the non-zero visible codes, and it exists exactly
      when all of them are scalars. */
  function Text(r: ImeResult): (t: Option<seq<Unit>>)
    ensures r.count == 0 ==> t == Some([])
    ensures r.count != 0 ==> (t.Some? <==> Convertible(Visible(r)))
    ensures r.count != 0 && t.Some? ==> Decode(t.value) == Some(NonZero(Visible(r)))
  {
    if r.count == 0 then Some([])
    else
      var codes := NonZero(Visible(r));
      ConvertibleIffScalars(Visible(r));
      if AllScalars(codes) then
        DecodeEncode(codes);
        Some(Encode(codes))
      else
        None
  }

  lemma {:induction false} NonZeroAppend(a: seq<int>, b: seq<int>)
    ensures NonZero(a + b) == NonZero(a) + NonZero(b)
  {
    if a == [] {
      assert a + b == b;
    } else {
      var head := if a[0] != 0 then [a[0]] else [];
      assert (a + b)[0] == a[0];
      assert (a + b)[1..] == a[1..] + b;
      NonZeroAppend(a[1..], b);
      calc {
        NonZero(a + b);
        head + NonZero(a[1..] + b);
        head + (NonZero(a[1..]) + NonZero(b));
        (head + NonZero(a[1..])) + NonZero(b);
      }
    }
  }

  /** Nothing is skipped when no code is 0. */
  lemma {:induction false} NonZeroKeepsAll(codes: seq<int>)
    requires forall i :: 0 <= i < |codes| ==> codes[i] != 0
    ensures NonZero(codes) == codes
  {
    if codes != [] {
      NonZeroKeepsAll(codes[1..]);
      assert codes == [codes[0]] + codes[1..];
    }
  }

  /** One step of `GetText`: a 0 adds nothing, a scalar adds its units. */
  lemma TextStep(done: seq<int>, code: int)
    requires AllScalars(NonZero(done)) && (code != 0 ==> IsScalar(code))
    ensures AllScalars(NonZero(done + [code]))
    ensures Encode(NonZero(done + [code]))
         == Encode(NonZero(done)) + (if code != 0 then EncodeScalar(code) else [])
  {
    NonZeroAppend(done, [code]);
    assert NonZero([code]) == (if code != 0 then [code] else []) + NonZero([]);
    EncodeAppend(NonZero(done), NonZero([code]));
  }

  /** `GetText`: appends the conversion of each non-zero code among the
      first `Count` array entries; returns `None` when a conversion throws. */
  method GetText(r: ImeResult) returns (text: Option<seq<Unit>>)
    ensures text == Text(r)
  {
    if r.count == 0 {
      return Some([]);
    }
    ghost var v := Visible(r);
    var sb: seq<Unit> := [];
    var i := 0;
    while i < r.count && i < |r.chars|
      invariant 0 <= i <= |v|
      invariant AllScalars(NonZero(v[..i]))
      invariant sb == Encode(NonZero(v[..i]))
    {
      var code := r.chars[i];
      assert v[..i + 1] == v[..i] + [code];
      if code > 0 {
        if !IsScalar(code) {
          assert code in v;
          ConvertibleIffScalars(v);
          return None;
        }
        sb := sb + EncodeScalar(code);
      }
      TextStep(v[..i], code);
      i := i + 1;
    }
    assert v[..i] == v;
    return Some(sb);
  }
}
