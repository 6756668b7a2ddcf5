/** The Windows application glue (`App` in
    platforms/windows/GoNhanh/App.xaml.cs): the key handler that asks the
    engine and injects its replacement, and the settings transitions that
    store a value and forward it to the engine. */
module WinApp {
  import opened Wrappers
  import opened Utf16
  import opened EngineFfi
  import opened WinKeys
  import opened WinBridge
  import opened WinTextSender

  /** `InputMethod`: Telex = 0, VNI = 1. */
  datatype InputMethod = Telex | Vni

  /** What the key handler did with one key: whether it marked the event
      handled, the engine call it made, the `SendInput` batches, whether
      `GetText` threw, and how many native results were released. */
  datatype KeyOutcome = KeyOutcome(
    handled: bool, request: Option<KeyRequest>, batches: seq<seq<Input>>, thrown: bool, freed: nat)

  /** The result of the engine call for one key. */
  function Reply(engine: Engine, vk: u16, shift: bool, capsLock: bool): ImeResult
    requires HasCapacity(engine(KeyRequest(VkToMacKey(vk), capsLock, false, shift)), WinCapacity)
  {
    Managed(engine(KeyRequest(VkToMacKey(vk), capsLock, false, shift)))
  }

  /** The results that replace the typed key: Send with characters, or Restore. */
  predicate Replaces(r: ImeResult) {
    (r.action == ActionSend && r.count > 0) || r.action == ActionRestore
  }

  /** The outcome of `OnKeyPressed` for an enabled or disabled app. */
  function KeyOutcomeOf(enabled: bool, engine: Engine, vk: u16, shift: bool, capsLock: bool, marker: int): KeyOutcome
    requires HasCapacity(engine(KeyRequest(VkToMacKey(vk), capsLock, false, shift)), WinCapacity)
  {
    if !enabled then KeyOutcome(false, None, [], false, 0)
    else
      var request := KeyRequest(VkToMacKey(vk), capsLock, false, shift);
      var freed := if engine(request).Some? then 1 else 0;
      var r := Reply(engine, vk, shift, capsLock);
      if !Replaces(r) then KeyOutcome(false, Some(request), [], false, freed)
      else
        match Text(r)
        case None => KeyOutcome(true, Some(request), [], true, freed)
        case Some(text) => KeyOutcome(true, Some(request), Batches(text, r.backspace, marker), false, freed)
  }

  /** The values the engine was last given through `SetMethod`,
      `SetEnabled` and `SetModernTone`. */
  datatype EngineSettings = EngineSettings(inputMethod: InputMethod, enabled: bool, modernTone: bool)

  class App {
    var isEnabled: bool
    var currentMethod: InputMethod
    var useModernTone: bool
    var shortcutEnabled: bool
    /** What the engine was last told. */
    var engineSettings: EngineSettings
    /** How many times the settings were saved. */
    var saves: nat
    /** The `(method, enabled)` pairs shown on the tray icon, in order. */
    var trayUpdates: seq<(InputMethod, bool)>

    /** The engine runs with the stored settings. */
    predicate Synced()
      reads this
    {
      engineSettings == EngineSettings(currentMethod, isEnabled, useModernTone)
    }

    /** The loaded settings followed by `ApplySettings`. */
    constructor (inputMethod: InputMethod, enabled: bool, modernTone: bool, shortcut: bool)
      ensures isEnabled == enabled && currentMethod == inputMethod
      ensures useModernTone == modernTone && shortcutEnabled == shortcut
      ensures Synced() && saves == 0 && trayUpdates == []
    {
      isEnabled := enabled;
      currentMethod := inputMethod;
      useModernTone := modernTone;
      shortcutEnabled := shortcut;
      engineSettings := EngineSettings(inputMethod, enabled, modernTone);
      saves := 0;
      trayUpdates := [];
    }

    /** `OnKeyPressed`: a disabled app leaves the key alone without asking
        the engine; otherwise a Send with characters or a Restore is marked
        handled and injected as `SendText(GetText(), Backspace)`. */
    method OnKeyPressed(engine: Engine, vk: u16, shift: bool, capsLock: bool, marker: int)
      returns (outcome: KeyOutcome)
      requires HasCapacity(engine(KeyRequest(VkToMacKey(vk), capsLock, false, shift)), WinCapacity)
      ensures outcome == KeyOutcomeOf(isEnabled, engine, vk, shift, capsLock, marker)
    {
      if !isEnabled {
        return KeyOutcome(false, None, [], false, 0);
      }
      var result, request, freed := ProcessKey(engine, vk, shift, capsLock);
      if (result.action == ActionSend && result.count > 0) || result.action == ActionRestore {
        var text := GetText(result);
        if text.None? {
          return KeyOutcome(true, Some(request), [], true, freed);
        }
        var batches := SendText(text.value, result.backspace, marker);
        return KeyOutcome(true, Some(request), batches, false, freed);
      }
      return KeyOutcome(false, Some(request), [], false, freed);
    }

    /** `ChangeInputMethod`: stores, saves and forwards the input method. */
    method ChangeInputMethod(inputMethod: InputMethod)
      requires Synced()
      modifies this
      ensures currentMethod == inputMethod && engineSettings.inputMethod == inputMethod && Synced()
      ensures isEnabled == old(isEnabled) && useModernTone == old(useModernTone)
      ensures shortcutEnabled == old(shortcutEnabled) && trayUpdates == old(trayUpdates)
      ensures saves == old(saves) + 1
    {
      currentMethod := inputMethod;
      saves := saves + 1;
      engineSettings := engineSettings.(inputMethod := inputMethod);
    }

    /** `ToggleEnabled`: stores, saves and forwards the flag. */
    method ToggleEnabled(enabled: bool)
      requires Synced()
      modifies this
      ensures isEnabled == enabled && engineSettings.enabled == enabled && Synced()
      ensures currentMethod == old(currentMethod) && useModernTone == old(useModernTone)
      ensures shortcutEnabled == old(shortcutEnabled) && trayUpdates == old(trayUpdates)
      ensures saves == old(saves) + 1
    {
      isEnabled := enabled;
      saves := saves + 1;
      engineSettings := engineSettings.(enabled := enabled);
    }

    /** `OnHotkeyToggle`: flips the flag, saves, forwards the new value and
        shows it on the tray icon. */
    method OnHotkeyToggle()
      requires Synced()
      modifies this
      ensures isEnabled == !old(isEnabled) && engineSettings.enabled == isEnabled && Synced()
      ensures currentMethod == old(currentMethod) && useModernTone == old(useModernTone)
      ensures shortcutEnabled == old(shortcutEnabled)
      ensures trayUpdates == old(trayUpdates) + [(currentMethod, isEnabled)]
      ensures saves == old(saves) + 1
    {
      isEnabled := !isEnabled;
      saves := saves + 1;
      engineSettings := engineSettings.(enabled := isEnabled);
      trayUpdates := trayUpdates + [(currentMethod, isEnabled)];
    }

    /** `ChangeModernTone`: stores, saves and forwards the tone style. */
    method ChangeModernTone(modern: bool)
      requires Synced()
      modifies this
      ensures useModernTone == modern && engineSettings.modernTone == modern && Synced()
      ensures isEnabled == old(isEnabled) && currentMethod == old(currentMethod)
      ensures shortcutEnabled == old(shortcutEnabled) && trayUpdates == old(trayUpdates)
      ensures saves == old(saves) + 1
    {
      useModernTone := modern;
      saves := saves + 1;
      engineSettings := engineSettings.(modernTone := modern);
    }

    /** `ChangeShortcutEnabled`: stored and saved only; the engine has no
        setting for it. */
    method ChangeShortcutEnabled(enabled: bool)
      requires Synced()
      modifies this
      ensures shortcutEnabled == enabled && engineSettings == old(engineSettings) && Synced()
      ensures isEnabled == old(isEnabled) && currentMethod == old(currentMethod)
      ensures useModernTone == old(useModernTone) && trayUpdates == old(trayUpdates)
      ensures saves == old(saves) + 1
    {
      shortcutEnabled := enabled;
      saves := saves + 1;
    }
  }

  // ----- Properties of the key handler -----

  /** A disabled app neither asks the engine nor handles the key. */
  lemma DisabledPassesThrough(engine: Engine, vk: u16, shift: bool, capsLock: bool, marker: int)
    requires HasCapacity(engine(KeyRequest(VkToMacKey(vk), capsLock, false, shift)), WinCapacity)
    ensures var o := KeyOutcomeOf(false, engine, vk, shift, capsLock, marker);
      !o.handled && o.request == None && o.batches == [] && o.freed == 0
  {
  }

  /** An enabled app handles the key exactly when the engine answers Send
      with characters or Restore; every other answer (None, an empty Send,
      a null pointer) sends nothing. */
  lemma HandledIffReplaces(engine: Engine, vk: u16, shift: bool, capsLock: bool, marker: int)
    requires HasCapacity(engine(KeyRequest(VkToMacKey(vk), capsLock, false, shift)), WinCapacity)
    ensures var o := KeyOutcomeOf(true, engine, vk, shift, capsLock, marker);
      && o.request == Some(KeyRequest(VkToMacKey(vk), capsLock, false, shift))
      && (o.handled <==> Replaces(Reply(engine, vk, shift, capsLock)))
      && (!o.handled ==> o.batches == [] && !o.thrown)
  {
  }

  /** A null engine pointer leaves the key unhandled. */
  lemma NullReplyPassesThrough(engine: Engine, vk: u16, shift: bool, capsLock: bool, marker: int)
    requires engine(KeyRequest(VkToMacKey(vk), capsLock, false, shift)).None?
    ensures var o := KeyOutcomeOf(true, engine, vk, shift, capsLock, marker);
      !o.handled && o.batches == [] && o.freed == 0
  {
  }

  /** A handled key whose text converts deletes `Backspace` characters and
      types exactly the engine's non-zero code values, in one batch at most. */
  lemma HandledKeyInjectsReplacement(engine: Engine, vk: u16, shift: bool, capsLock: bool, marker: int)
    requires HasCapacity(engine(KeyRequest(VkToMacKey(vk), capsLock, false, shift)), WinCapacity)
    requires Replaces(Reply(engine, vk, shift, capsLock))
    requires Convertible(Visible(Reply(engine, vk, shift, capsLock)))
    ensures var o := KeyOutcomeOf(true, engine, vk, shift, capsLock, marker);
      var r := Reply(engine, vk, shift, capsLock);
      && o.handled && !o.thrown && o.freed == 1 && |o.batches| <= 1
      && (r.backspace > 0 ==> |o.batches| == 1)
      && (o.batches != [] ==>
            && Deleted(o.batches[0]) == r.backspace
            && Decode(Typed(o.batches[0])) == Some(if r.count == 0 then [] else NonZero(Visible(r))))
  {
    var r := Reply(engine, vk, shift, capsLock);
    var text := Text(r).value;
    InputsRoundTrip(text, r.backspace, marker);
    InputsLayout(text, r.backspace, marker);
    if r.count == 0 {
      DecodeEncode([]);
    }
  }

  /** A code value `char.ConvertFromUtf32` rejects makes the handler throw
      after marking the key handled, with nothing sent. */
  lemma InvalidCodeThrows(engine: Engine, vk: u16, shift: bool, capsLock: bool, marker: int)
    requires HasCapacity(engine(KeyRequest(VkToMacKey(vk), capsLock, false, shift)), WinCapacity)
    requires Replaces(Reply(engine, vk, shift, capsLock)) && Reply(engine, vk, shift, capsLock).count > 0
    requires !Convertible(Visible(Reply(engine, vk, shift, capsLock)))
    ensures var o := KeyOutcomeOf(true, engine, vk, shift, capsLock, marker);
      o.handled && o.thrown && o.batches == []
  {
  }
}
