/** How the two hosts turn the same engine reply into text.  macOS keeps
    the scalar code values (0 included) and drops the rest; Windows skips the
    zeros and fails on any other non-scalar. */
module CrossHost {
  import opened Wrappers
  import opened Utf16
  import opened EngineFfi
  import opened MacBridge
  import opened WinBridge

  /** Both hosts read the same first `count` code values. */
  predicate SameReply(mac: NativeResult, win: NativeResult) {
    && |mac.chars| == MacCapacity && |win.chars| == WinCapacity
    && mac.action == win.action == ActionSend
    && mac.backspace == win.backspace
    && mac.count == win.count && mac.count <= MacCapacity
    && mac.chars[..mac.count] == win.chars[..win.count]
  }

  /** For replies made of non-zero scalars the hosts agree: Windows' string
      is the UTF-16 form of exactly the characters macOS sends. */
  lemma HostsAgreeOnScalars(mac: NativeResult, win: NativeResult)
    requires SameReply(mac, win)
    requires forall i :: 0 <= i < mac.count ==> mac.chars[i] != 0 && IsScalar(mac.chars[i])
    ensures Decision(Some(mac)) == Some(Replacement(mac.backspace, mac.chars[..mac.count]))
    ensures Text(Copied(win)) == Some(Encode(mac.chars[..mac.count]))
  {
    var codes := mac.chars[..mac.count];
    assert AllScalars(codes);
    DecisionKeepsValidChars(mac);
    var w := Copied(win);
    assert Visible(w) == codes;
    NonZeroKeepsAll(codes);
    if w.count != 0 {
      assert NonZero(Visible(w)) == codes;
      DecodeEncode(codes);
      EncodeDecode(Text(w).value);
    }
  }

  /** A 0 code value is a character on macOS but is skipped on Windows. */
  lemma HostsDifferOnNul(mac: NativeResult, win: NativeResult)
    requires SameReply(mac, win) && mac.count == 1 && mac.chars[0] == 0
    ensures Decision(Some(mac)) == Some(Replacement(mac.backspace, [0]))
    ensures Text(Copied(win)) == Some([])
  {
    assert mac.chars[..1] == [0];
    DecisionKeepsValidChars(mac);
    var w := Copied(win);
    assert Visible(w) == [0];
    assert NonZero([0]) == [] + NonZero([]);
    EncodeDecode(Text(w).value);
  }

  /** A lone surrogate is dropped on macOS but makes Windows throw. */
  lemma HostsDifferOnSurrogate(mac: NativeResult, win: NativeResult)
    requires SameReply(mac, win) && mac.count == 1 && mac.chars[0] == 0xD800
    ensures Decision(Some(mac)) == Some(Replacement(mac.backspace, []))
    ensures Text(Copied(win)) == None
  {
    assert mac.chars[..1] == [0xD800];
    assert Scalars([0xD800]) == [] + Scalars([]);
    var w := Copied(win);
    assert Visible(w) == [0xD800];
    assert !Convertible(Visible(w)) by {
      assert 0xD800 in Visible(w);
    }
  }
}
