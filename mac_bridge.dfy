/** The macOS engine client (`RustBridge` in
    platforms/macos/RustBridge.swift): one-time initialisation and the
    decoding of one engine result into a backspace count and characters. */
module MacBridge {
  import opened Wrappers
  import opened Utf16
  import opened EngineFfi

  /** The Swift `ImeResult` tuple holds 32 code values. */
  const MacCapacity: nat := 32

  /** What `processKey` hands back: `(backspace, chars)`. */
  datatype Replacement = Replacement(backspace: nat, chars: seq<int>)

  /** The reply has the 32-entry layout and its count stays inside it. */
  predicate FitsMacBuffer(reply: Option<NativeResult>) {
    HasCapacity(reply, MacCapacity) && (reply.Some? ==> reply.value.count <= MacCapacity)
  }

  /** The decision `processKey` extracts from a reply: only action 1 (Send)
      yields a replacement (None and Restore both give nil); its characters
      are the first `count` code values that are Unicode scalars, in order. */
  function Decision(reply: Option<NativeResult>): (r: Option<Replacement>)
    requires FitsMacBuffer(reply)
    ensures r.Some? <==> reply.Some? && reply.value.action == ActionSend
    ensures r.Some? ==>
      && r.value.backspace == reply.value.backspace
      && AllScalars(r.value.chars)
      && |r.value.chars| <= reply.value.count
      && r.value.chars == Scalars(reply.value.chars[..reply.value.count])
  {
    match reply
    case None => None
    case Some(n) =>
      if n.action != ActionSend then None
      else Some(Replacement(n.backspace, Scalars(n.chars[..n.count])))
  }

  /** When every returned code is a valid scalar, the characters are exactly
      the first `count` code values. */
  lemma DecisionKeepsValidChars(n: NativeResult)
    requires FitsMacBuffer(Some(n)) && n.action == ActionSend
    requires AllScalars(n.chars[..n.count])
    ensures Decision(Some(n)) == Some(Replacement(n.backspace, n.chars[..n.count]))
  {
    ScalarsOfScalars(n.chars[..n.count]);
  }

  /** A code value reaches the replacement iff it is among the first
      `count` values and is a Unicode scalar: surrogates and values above
      U+10FFFF are dropped, never turned into a replacement character. */
  lemma DecisionKeepsExactlyScalars(n: NativeResult, c: int)
    requires FitsMacBuffer(Some(n)) && n.action == ActionSend
    ensures c in Decision(Some(n)).value.chars <==> c in n.chars[..n.count] && IsScalar(c)
  {
    ScalarsMembers(n.chars[..n.count], c);
  }

  /** For instance, a high surrogate followed by U+00E1 gives U+00E1 alone. */
  lemma DecisionDropsSurrogate(n: NativeResult)
    requires |n.chars| == MacCapacity && n.action == ActionSend && n.count == 2
    requires n.chars[0] == 0xD800 && n.chars[1] == 0xE1
    ensures Decision(Some(n)) == Some(Replacement(n.backspace, [0xE1]))
  {
    assert n.chars[..n.count] == [0xD800] + [0xE1];
    ScalarsAppend([0xD800], [0xE1]);
    assert Scalars([0xD800]) == [];
    assert Scalars([0xE1]) == [0xE1];
    assert Scalars(n.chars[..n.count]) == [0xE1];
    assert n.action == ActionSend;
  }

  /** The process-wide bridge state: whether `ime_init` has run. */
  class RustBridge {
    var isInitialized: bool
    /** How many times `ime_init` has been called. */
    var initCalls: nat

    constructor ()
      ensures !isInitialized && initCalls == 0
    {
      isInitialized := false;
      initCalls := 0;
    }

    /** `initialize`: calls `ime_init` only the first time. */
    method Initialize()
      modifies this
      ensures isInitialized
      ensures initCalls == old(initCalls) + (if old(isInitialized) then 0 else 1)
    {
      if isInitialized {
        return;
      }
      initCalls := initCalls + 1;
      isInitialized := true;
    }

    /** `processKey`.  Returns the replacement, the engine call it made (none
        when the engine is not initialised) and how many times it released
        the native result (`ime_free` in a `defer`, so once on every path
        after a non-null pointer). */
    method ProcessKey(engine: Engine, keyCode: u16, caps: bool, ctrl: bool, shift: bool)
      returns (r: Option<Replacement>, request: Option<KeyRequest>, freed: nat)
      requires isInitialized ==> FitsMacBuffer(engine(KeyRequest(keyCode, caps, ctrl, shift)))
      ensures request == (if isInitialized then Some(KeyRequest(keyCode, caps, ctrl, shift)) else None)
      ensures r == (if isInitialized then Decision(engine(KeyRequest(keyCode, caps, ctrl, shift))) else None)
      ensures freed == (if isInitialized && engine(KeyRequest(keyCode, caps, ctrl, shift)).Some? then 1 else 0)
    {
      if !isInitialized {
        return None, None, 0;
      }
      var req := KeyRequest(keyCode, caps, ctrl, shift);
      request := Some(req);
      var resultPtr := engine(req);
      if resultPtr.None? {
        return None, request, 0;
      }
      var result := resultPtr.value;
      if result.action != ActionSend {
        r, freed := None, 1;  // the deferred ime_free
        return;
      }
      var backspace := result.backspace;
      var charArray := result.chars[..result.count];
      var chars: seq<int> := [];
      for i := 0 to |charArray|
        invariant chars == Scalars(charArray[..i])
      {
        var code := charArray[i];
        if IsScalar(code) {
          chars := chars + [code];
        }
        assert charArray[..i + 1] == charArray[..i] + [code];
        ScalarsAppend(charArray[..i], [code]);
      }
      assert charArray[..|charArray|] == charArray;
      r, freed := Some(Replacement(backspace, chars)), 1;  // the deferred ime_free
    }
  }
}
