/** macOS key normalisation, the Ctrl+Space toggle hotkey and the app
    detection that picks a replacement strategy
    (platforms/macos/RustBridge.swift). */
module MacKeys {
  import opened Wrappers
  import opened EngineFfi

  /** The `CGEventFlags` masks the callback looks at. */
  datatype Flags = Flags(
    shift: bool,       // .maskShift
    control: bool,     // .maskControl
    alternate: bool,   // .maskAlternate (Option)
    command: bool,     // .maskCommand
    alphaShift: bool)  // .maskAlphaShift (Caps Lock)

  /** macOS virtual keycodes used by the bridge. */
  const SpaceKey: u16 := 0x31
  const BackspaceKey: u16 := 0x33
  const LeftArrowKey: u16 := 0x7B

  /** `GlobalHotkey.isToggleHotkey`: Space with Control and without Command. */
  predicate IsToggleHotkey(keyCode: u16, flags: Flags) {
    keyCode == SpaceKey && flags.control && !flags.command
  }

  /** Control+Space toggles whatever Shift, Option or Caps Lock do, as long
      as Command is not held; another key, a missing Control or a held
      Command never toggles. */
  lemma ToggleHotkeyIsControlSpace(keyCode: u16, flags: Flags)
    ensures forall shift: bool, alternate: bool, alphaShift: bool ::
      IsToggleHotkey(SpaceKey, Flags(shift, true, alternate, false, alphaShift))
    ensures keyCode != SpaceKey || !flags.control || flags.command ==> !IsToggleHotkey(keyCode, flags)
  {
  }

  /** Shift, Option and Caps Lock play no part in recognising the hotkey. */
  lemma ToggleHotkeyIgnoresOtherModifiers(keyCode: u16, flags: Flags, shift: bool, alternate: bool, alphaShift: bool)
    ensures IsToggleHotkey(keyCode, flags)
        == IsToggleHotkey(keyCode, flags.(shift := shift, alternate := alternate, alphaShift := alphaShift))
  {
  }

  /** The engine's modifier arguments for an event.  Shift and Caps Lock both
      give `caps` (letter case), Shift stays separately visible for the
      symbol keys, and any of Command, Control or Option gives `ctrl`, which
      makes the engine let the key through. */
  function EngineRequest(keyCode: u16, flags: Flags): (r: KeyRequest)
    ensures r.key == keyCode
    ensures r.shift == flags.shift
    ensures r.caps <==> flags.shift || flags.alphaShift
    ensures r.ctrl <==> flags.command || flags.control || flags.alternate
  {
    var shift := flags.shift;
    var caps := shift || flags.alphaShift;
    var ctrl := flags.command || flags.control || flags.alternate;
    KeyRequest(keyCode, caps, ctrl, shift)
  }

  /** The frontmost application, whose bundle identifier may be missing. */
  datatype FrontApp = FrontApp(bundleIdentifier: Option<string>)

  /** Bundle-id prefixes of apps whose autocomplete garbles
      delete-then-insert. */
  const AutocompleteApps: seq<string> := [
    "com.google.Chrome",
    "com.microsoft.edgemac",
    "com.microsoft.Excel",
    "com.microsoft.Word",
    "com.microsoft.Powerpoint",
    "com.apple.Safari",
    "org.mozilla.firefox",
    "com.google.android.studio"
  ]

  predicate HasPrefix(s: string, prefix: string) {
    |prefix| <= |s| && s[..|prefix|] == prefix
  }

  /** The loop over the list with an early return on the first match. */
  function AnyPrefix(ids: seq<string>, bundleId: string): (found: bool)
    ensures found <==> exists i :: 0 <= i < |ids| && HasPrefix(bundleId, ids[i])
  {
    if ids == [] then false
    else if HasPrefix(bundleId, ids[0]) then true
    else
      var rest := AnyPrefix(ids[1..], bundleId);
      assert forall i :: 1 <= i < |ids| ==> ids[i] == ids[1..][i - 1];
      rest
  }

  /** `needsSelectionWorkaround`: true iff there is a front app and its
      bundle id (or "" when it has none) starts with one of the listed ids. */
  function NeedsSelectionWorkaround(front: Option<FrontApp>): (useSelection: bool)
    ensures useSelection <==>
      front.Some? &&
      exists i :: 0 <= i < |AutocompleteApps| &&
        HasPrefix(front.value.bundleIdentifier.GetOr(""), AutocompleteApps[i])
  {
    match front
    case None => false
    case Some(app) => AnyPrefix(AutocompleteApps, app.bundleIdentifier.GetOr(""))
  }

  /** An app without a bundle id never gets the workaround: every listed id
      is non-empty, so none is a prefix of "". */
  lemma MissingBundleIdUsesBackspace()
    ensures !NeedsSelectionWorkaround(Some(FrontApp(None)))
  {
    NoPrefixOfEmpty(AutocompleteApps);
  }

  /** Only the empty id is a prefix of "". */
  lemma {:induction false} NoPrefixOfEmpty(ids: seq<string>)
    requires forall i :: 0 <= i < |ids| ==> ids[i] != []
    ensures !AnyPrefix(ids, "")
  {
    if ids != [] {
      assert !HasPrefix("", ids[0]);
      NoPrefixOfEmpty(ids[1..]);
    }
  }

  /** A browser's helper processes share its prefix and get the workaround
      too (the match is by prefix, not equality). */
  lemma ChromeHelperUsesSelection()
    ensures NeedsSelectionWorkaround(Some(FrontApp(Some("com.google.Chrome.canary"))))
  {
    assert HasPrefix("com.google.Chrome.canary", AutocompleteApps[0]);
  }
}
