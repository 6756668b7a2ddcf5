# GoNhanh keystroke pipeline in Dafny

GoNhanh is a Vietnamese input method. On macOS and on Windows a thin host
intercepts every key-down. It hands the key to an external Telex/VNI engine
(`ime_key_ext` in the Rust core). The engine answers None, Send or Restore,
together with a backspace count and up to 32 (macOS) or 64 (Windows)
replacement code values. The host then deletes the characters just typed and
injects the replacement as synthetic Unicode key events. This project models
the host side of that pipeline and proves what each step promises:

- **Engine client.** `MacBridge` covers `processKey` and `initialize`. On
  Windows, `WinBridge` covers `ProcessKey`, `ImeResult.FromNative`,
  `ImeResult.GetText` and `ImeResult.Empty`, and `WinKeys` covers
  `VkToMacKey`. The engine is a function parameter
  (`EngineFfi.Engine`): a key request maps to a null pointer or to a native
  result struct. Every path that obtains a non-null pointer releases it
  exactly once.
- **Routing on macOS.** `MacKeys` holds the Ctrl+Space hotkey, the modifier
  normalisation and the autocomplete-app detection. `MacHook` holds the
  event-tap lifecycle (`start`/`stop`) and `keyboardCallback`. OS calls are
  recorded in an ordered log, and their success or failure is an input.
- **Injection.** On macOS, `MacReplace` models the two strategies as traces
  of posted events and `usleep` tokens: delete-then-insert, and
  select-then-replace for autocomplete apps. Any event creation may fail. On
  Windows, `WinTextSender` builds the `SendInput` batch.
- **UTF-16.** `Utf16` models the encoding both hosts use, as in section 2.1
  of RFC 2781. `CrossHost` compares what the two hosts make of the same
  reply.
- **Windows application.** `WinApp` covers `OnKeyPressed` and the settings
  transitions that store a value and forward it to the engine. `WinUpdate`
  covers the update check: the `v` trim of the release tag and
  `IsNewerVersion`.

Three behaviours of the code are easy to miss, and the model keeps them:

- Both macOS strategies always post the Unicode key pair, even for an empty
  string (platforms/macos/RustBridge.swift:428-440 and 469-481).
- macOS `processKey` returns nil for action 2, Restore
  (platforms/macos/RustBridge.swift:92-94), so the key passes through.
  Windows `OnKeyPressed` injects a Restore like a Send, even with a count
  of 0 (platforms/windows/GoNhanh/App.xaml.cs:113-117).
- The two hosts read different amounts of the engine's reply. The Swift
  tuple holds 32 code values. The C# struct declares 64 inline code values
  (platforms/windows/GoNhanh/Core/RustBridge.cs:227), and `FromNative`
  copies up to 64.

## Model

| member | source | states |
|---|---|---|
| MacBridge.RustBridge.Initialize | platforms/macos/RustBridge.swift:66-71 | `ime_init` runs on the first call only. Afterwards the bridge is initialised. |
| MacBridge.RustBridge.ProcessKey | platforms/macos/RustBridge.swift:80-115 | Returns nil when the bridge is not initialised (no engine call), on a null pointer, or when the action is not 1 (Send); Restore gives nil too. Otherwise returns the backspace count and the scalars among the first `count` code values, in order. The result is freed once after a non-null pointer. |
| MacBridge.Decision | platforms/macos/RustBridge.swift:92-112 | A replacement exists iff the reply is non-null with action Send. Its backspace is the engine's. Its characters are all scalars, at most `count` of them, and they are the filtered first `count` values. |
| MacBridge.DecisionKeepsValidChars | platforms/macos/RustBridge.swift:100-112 | When every returned code is a scalar, the characters are exactly the first `count` code values. |
| MacBridge.DecisionKeepsExactlyScalars | platforms/macos/RustBridge.swift:100-112 | A code value is among the replacement's characters iff it is one of the first `count` values and a Unicode scalar. Surrogates and values above U+10FFFF are dropped, not replaced. |
| MacBridge.DecisionDropsSurrogate | platforms/macos/RustBridge.swift:108-112 | An example: the codes [0xD800, 0xE1] give [0xE1]. The surrogate is dropped and the next character is kept. |
| MacKeys.ToggleHotkeyIsControlSpace | platforms/macos/RustBridge.swift:272-274 | Space with Control held and Command not held toggles, whatever Shift, Option and Caps Lock are. Another key, a missing Control or a held Command never toggles. |
| MacKeys.ToggleHotkeyIgnoresOtherModifiers | platforms/macos/RustBridge.swift:269-275 | Recognising Ctrl+Space does not depend on Shift, Option or Caps Lock. |
| MacKeys.EngineRequest | platforms/macos/RustBridge.swift:311-315 | `shift` is the Shift flag. `caps` is Shift or Caps Lock. `ctrl` is Command, Control or Option. The keycode is passed unchanged. |
| MacKeys.AnyPrefix | platforms/macos/RustBridge.swift:364-370 | The early-return loop finds a match iff some listed id is a prefix of the bundle id. |
| MacKeys.NeedsSelectionWorkaround | platforms/macos/RustBridge.swift:345-371 | True iff there is a front app and its bundle id, or "" when it has none, starts with one of the eight autocomplete-app ids. |
| MacKeys.MissingBundleIdUsesBackspace | platforms/macos/RustBridge.swift:350-368 | An app without a bundle id never gets the selection strategy. |
| MacKeys.ChromeHelperUsesSelection | platforms/macos/RustBridge.swift:353-366 | Matching is by prefix: a longer id that starts with a listed id, such as `com.google.Chrome.canary`, gets the selection strategy. |
| MacReplace.SendTextReplacementWithBackspace | platforms/macos/RustBridge.swift:396-445 | Posts exactly the delete-then-insert trace for the given creation failures. Without a source it posts nothing. A pair that cannot be created is skipped and the loop goes on. 200µs separate the backspaces and 800µs follow them when there are any. The Unicode pair carries the UTF-16 of the characters and is followed by 500µs. |
| MacReplace.SendTextReplacementWithSelection | platforms/macos/RustBridge.swift:448-482 | Posts exactly the select-then-replace trace: `n` Shift+Left pairs (skipping those that cannot be created), then the Unicode pair, with no delays. |
| MacReplace.SendTextReplacement | platforms/macos/RustBridge.swift:385-393 | Runs the selection strategy iff the front app needs the workaround, and the backspace strategy otherwise. |
| MacReplace.DirectLayout | platforms/macos/RustBridge.swift:407-443 | With every event created, the backspace trace has length 3n+3. Each position is fixed: down, up and a delay per backspace (200µs, 800µs after the last), then the Unicode down, up and 500µs. |
| MacReplace.SelectionLayout | platforms/macos/RustBridge.swift:454-481 | With every event created, the selection trace has length 2n+2: n Shift+Left down/up pairs, then the Unicode pair. |
| MacReplace.StrategiesDifferOnlyInDeletionKey | platforms/macos/RustBridge.swift:396-482 | For any creation failures, the backspace trace with backspaces renamed to Shift+Left and delays dropped is exactly the selection trace. |
| MacReplace.BackspaceCount | platforms/macos/RustBridge.swift:400-420 | The backspace key-downs posted are exactly those of the loop iterations whose events could be created, and none without a source. |
| MacReplace.SelectionNeverDeletes | platforms/macos/RustBridge.swift:448-482 | The selection strategy never posts a backspace. |
| MacReplace.ReplacementInsertsAllChars | platforms/macos/RustBridge.swift:385-482 | With every event created, either strategy posts exactly n deletion or selection key-downs, then one Unicode key-down whose payload decodes to the characters in order. No key-down follows it. |
| MacHook.Attempts | platforms/macos/RustBridge.swift:173-207 | `tapCreate` is tried at the HID, session and annotated-session locations in that order. Trying stops at the first success, so every earlier attempt failed. |
| MacHook.FirstTap | platforms/macos/RustBridge.swift:173-209 | The tap is the first location in that order that works. There is none iff every location fails. |
| MacHook.KeyboardHookManager.Start | platforms/macos/RustBridge.swift:146-243 | Already running: nothing changes. Untrusted: only the permission prompt. Otherwise: the engine is initialised once and the creation attempts are logged. With no tap, the alert is shown and nothing else changes. With a tap, it is stored, and the hook runs iff the run-loop source was created, after adding it and enabling the tap. Running always implies a tap and a source. |
| MacHook.KeyboardHookManager.Stop | platforms/macos/RustBridge.swift:245-260 | Does nothing when not running. Otherwise it disables the tap, removes the source, and clears both and `isRunning`. |
| MacHook.KeyboardCallback | platforms/macos/RustBridge.swift:279-340 | Does what `Route` describes and changes only the hook's OS log, where it records the re-enable of a disabled tap. It frees the engine result once per non-null pointer. |
| MacHook.PassThroughIsSilent | platforms/macos/RustBridge.swift:292-298 | A passed-through event never comes with posted events or a toggle notification. |
| MacHook.NonKeyDownPassesThrough | platforms/macos/RustBridge.swift:286-298 | A tap-disabled event and every other event that is not a key-down pass through with no engine call, no posted events and no toggle. |
| MacHook.HotkeyConsumedWithoutEngine | platforms/macos/RustBridge.swift:303-309 | Ctrl+Space is consumed and signals the toggle without any engine call. |
| MacHook.OnlyTapDisabledReEnables | platforms/macos/RustBridge.swift:286-293 | Only a tap-disabled event (timeout or user input) re-enables the tap, and it is the tap the manager holds. |
| MacHook.KeyDownConsumedIffSend | platforms/macos/RustBridge.swift:311-339 | An ordinary key-down reaches the engine, with normalised modifiers, iff the bridge is initialised. It is consumed iff the engine answers Send. |
| MacHook.SendIsFullyReplaced | platforms/macos/RustBridge.swift:319-335 | On Send with every event created, the key is consumed and the trace holds the Unicode key-down of the scalars after exactly `backspace` deletion or selection key-downs. |
| Utf16.EncodeScalar | platforms/macos/RustBridge.swift:429 | A scalar below U+10000 is one unit that is not a surrogate. Above that, it is a high and a low surrogate that combine back to it. |
| Utf16.Encode | platforms/macos/RustBridge.swift:429 | The UTF-16 of n scalars has between n and 2n units. |
| Utf16.DecodeEncode | platforms/macos/RustBridge.swift:429-437 | Decoding the UTF-16 payload gives back every scalar, in order. |
| Utf16.EncodeDecode | platforms/macos/RustBridge.swift:429-437 | Well-formed UTF-16 is exactly the image of the encoding. |
| Utf16.Scalars | platforms/macos/RustBridge.swift:108-112 | The kept codes are all scalars, and there are no more of them than input codes. |
| Utf16.ScalarsMembers | platforms/macos/RustBridge.swift:108-112 | A value is kept iff it occurs among the codes and is a scalar. |
| WinKeys.VkToMacKey | platforms/windows/GoNhanh/Core/RustBridge.cs:123-196 | Every listed virtual key (letters, digits, Space, Backspace, Tab, Return, Escape, arrows, OEM punctuation) maps to the 7-bit macOS keycode of its table entry. The independently written reverse table, which is defined only on the 56 table keycodes, maps that keycode back to the key. Every other code passes through unchanged. |
| WinKeys.ListedKeysInjective | platforms/windows/GoNhanh/Core/RustBridge.cs:123-196 | Two different listed keys never reach the engine as the same key. |
| WinKeys.PassThroughMayCollide | platforms/windows/GoNhanh/Core/RustBridge.cs:194 | The pass-through arm can collide with a listed key: VK_CLEAR (0x0C) reaches the engine as 12, the same as Q. |
| WinBridge.Copied | platforms/windows/GoNhanh/Core/RustBridge.cs:259-271 | The managed result keeps the action, backspace and count. It has `count` slots: the inline value below 64 and 0 beyond. |
| WinBridge.FromNative | platforms/windows/GoNhanh/Core/RustBridge.cs:254-272 | A null pointer gives `Empty`. Otherwise the copy loop over `i < count && i < 64` produces exactly `Copied`. |
| WinBridge.ProcessKey | platforms/windows/GoNhanh/Core/RustBridge.cs:90-112 | The engine is asked for `VkToMacKey(vk)` with caps = Caps Lock, ctrl = false and shift = Shift. A null reply gives `Empty`, otherwise the managed copy. The result is freed once after a non-null pointer. |
| WinBridge.Text | platforms/windows/GoNhanh/Core/RustBridge.cs:277-291 | A count of 0 gives "". Otherwise a string exists iff every non-zero visible code converts, and it decodes to exactly those codes in order. |
| WinBridge.GetText | platforms/windows/GoNhanh/Core/RustBridge.cs:277-291 | The loop over `i < Count && i < chars.Length` returns exactly `Text`. An invalid code ends it with the exception. |
| WinBridge.NonZeroMembers | platforms/windows/GoNhanh/Core/RustBridge.cs:283-288 | A code is converted iff it occurs and is not 0. |
| WinBridge.ConvertibleIffScalars | platforms/windows/GoNhanh/Core/RustBridge.cs:283-288 | The skipped-zero codes are all scalars iff no non-zero code makes `ConvertFromUtf32` throw. |
| CrossHost.HostsAgreeOnScalars | platforms/windows/GoNhanh/Core/RustBridge.cs:277-291 | For a Send reply of non-zero scalars, macOS keeps every code and the Windows string is the UTF-16 of exactly those characters. |
| CrossHost.HostsDifferOnNul | platforms/windows/GoNhanh/Core/RustBridge.cs:285-288 | An example: a reply holding the single code 0 gives the character U+0000 on macOS and the empty string on Windows. |
| CrossHost.HostsDifferOnSurrogate | platforms/windows/GoNhanh/Core/RustBridge.cs:287 | An example: a reply holding the single code 0xD800 gives no characters on macOS and makes `GetText` throw on Windows. |
| WinTextSender.SendText | platforms/windows/GoNhanh/Core/TextSender.cs:65-155 | The batches handed to `SendInput` are the input list once, and only when it is non-empty. The early return for empty text with no backspace agrees with that. |
| WinTextSender.InputsLayout | platforms/windows/GoNhanh/Core/TextSender.cs:74-148 | The list holds 2·max(backspaces, 0) + 2·\|text\| inputs. VK_BACK down (flags 0) and up (KEYUP) alternate first. Then, for each code unit in order, a down with UNICODE and an up with UNICODE\|KEYUP, both with `wScan` = the unit and `wVk` = 0. |
| WinTextSender.MarkerOnEveryInput | platforms/windows/GoNhanh/Core/TextSender.cs:71-147 | Every input is a keyboard input with time 0 and carries the injected-key marker. |
| WinTextSender.NoBackspaceAfterUnicode | platforms/windows/GoNhanh/Core/TextSender.cs:74-148 | No VK_BACK input follows any Unicode input. |
| WinTextSender.EmptyRequestSendsNothing | platforms/windows/GoNhanh/Core/TextSender.cs:67-154 | Nothing is submitted iff the text is empty and the backspace count is at most 0. |
| WinTextSender.InputsRoundTrip | platforms/windows/GoNhanh/Core/TextSender.cs:74-148 | Reading the list back gives max(backspaces, 0) deletions and exactly the text, unit for unit. |
| WinUpdate.Split | platforms/windows/GoNhanh/Services/UpdateService.cs:62-63 | `Split('.')` gives at least one piece, no piece contains a dot, and joining the pieces gives back the string. |
| WinUpdate.SplitJoin | platforms/windows/GoNhanh/Services/UpdateService.cs:62-63 | Splitting undoes joining dot-free pieces. |
| WinUpdate.ParseInt32 | platforms/windows/GoNhanh/Services/UpdateService.cs:62 | An `int.Parse` result is always a 32-bit value. |
| WinUpdate.ParseShow | platforms/windows/GoNhanh/Services/UpdateService.cs:62 | `int.Parse` reads back the decimal form of every non-negative 32-bit number. |
| WinUpdate.AllValues | platforms/windows/GoNhanh/Services/UpdateService.cs:62-63 | The component list exists iff every piece parses, and then it holds each piece's value in order. |
| WinUpdate.IsNewerVersion | platforms/windows/GoNhanh/Services/UpdateService.cs:58-78 | Gives exactly the parsed comparison `IsNewer`. A parse failure on either side gives false. |
| WinUpdate.CompareParts | platforms/windows/GoNhanh/Services/UpdateService.cs:65-72 | The loop over the common prefix with early returns, then the length test, computes exactly the component order `Newer`. |
| WinUpdate.FirstDifferenceDecides | platforms/windows/GoNhanh/Services/UpdateService.cs:66-70 | At the first differing component, latest is newer iff its component is greater. |
| WinUpdate.EqualPrefixComparesLengths | platforms/windows/GoNhanh/Services/UpdateService.cs:72 | With an equal common prefix, latest is newer iff it has more components. |
| WinUpdate.NewerIrreflexive | platforms/windows/GoNhanh/Services/UpdateService.cs:66-72 | No component list is newer than itself. |
| WinUpdate.NewerAsymmetric | platforms/windows/GoNhanh/Services/UpdateService.cs:66-72 | Two component lists are never each newer than the other. |
| WinUpdate.NewerTransitive | platforms/windows/GoNhanh/Services/UpdateService.cs:66-72 | The order is transitive. |
| WinUpdate.NewerTotal | platforms/windows/GoNhanh/Services/UpdateService.cs:66-72 | Any two distinct component lists are ordered one way or the other. |
| WinUpdate.SameVersionNotNewer | platforms/windows/GoNhanh/Services/UpdateService.cs:58-78 | `IsNewerVersion(v, v)` is false. |
| WinUpdate.IsNewerAsymmetric | platforms/windows/GoNhanh/Services/UpdateService.cs:58-78 | `IsNewerVersion(a, b)` and `IsNewerVersion(b, a)` are never both true. |
| WinUpdate.UnparsableIsNotNewer | platforms/windows/GoNhanh/Services/UpdateService.cs:60-77 | If any component of either version fails to parse, the answer is false. |
| WinUpdate.RenderedCompare | platforms/windows/GoNhanh/Services/UpdateService.cs:58-78 | On dotted decimal versions the string comparison equals the numeric component-wise order. |
| WinUpdate.TrailingZeroIsNewer | platforms/windows/GoNhanh/Services/UpdateService.cs:72 | "1.0" is newer than "1". |
| WinUpdate.TrimLeadingV | platforms/windows/GoNhanh/Services/UpdateService.cs:42 | The result is a suffix of the tag. Everything removed is `v`, and the result does not start with `v`. |
| WinUpdate.UpdateService.CheckForUpdates | platforms/windows/GoNhanh/Services/UpdateService.cs:30-53 | A failure sets `UpdateAvailable` to false and keeps the rest. Both strings present: stores the trimmed tag and the URL, and compares with the current version. A null string changes nothing. |
| WinApp.App.constructor | platforms/windows/GoNhanh/App.xaml.cs:81-86 | After loading and `ApplySettings`, the engine runs with the stored settings. |
| WinApp.App.OnKeyPressed | platforms/windows/GoNhanh/App.xaml.cs:102-118 | Produces exactly `KeyOutcomeOf`: disabled gives no engine call; a Send with characters or a Restore is handled and injected as `SendText(GetText(), Backspace)`; anything else passes. |
| WinApp.App.ChangeInputMethod | platforms/windows/GoNhanh/App.xaml.cs:133-138 | Stores the method, saves, and forwards exactly that method to the engine. Nothing else changes. |
| WinApp.App.ToggleEnabled | platforms/windows/GoNhanh/App.xaml.cs:140-145 | Stores the flag, saves, and forwards exactly that flag. Nothing else changes. |
| WinApp.App.OnHotkeyToggle | platforms/windows/GoNhanh/App.xaml.cs:147-153 | Flips the flag, saves, forwards the new value and shows it on the tray. |
| WinApp.App.ChangeModernTone | platforms/windows/GoNhanh/App.xaml.cs:155-160 | Stores the tone style, saves and forwards it. |
| WinApp.App.ChangeShortcutEnabled | platforms/windows/GoNhanh/App.xaml.cs:162-168 | Stores and saves the flag. The engine is not told. |
| WinApp.DisabledPassesThrough | platforms/windows/GoNhanh/App.xaml.cs:104 | When disabled: no engine call, not handled, nothing sent. |
| WinApp.HandledIffReplaces | platforms/windows/GoNhanh/App.xaml.cs:106-117 | When enabled, the engine is asked. The key is handled iff the answer is Send with `Count > 0` or Restore. An unhandled key sends nothing. |
| WinApp.NullReplyPassesThrough | platforms/windows/GoNhanh/App.xaml.cs:106-108 | A null engine pointer (`Empty`) leaves the key unhandled, with nothing freed. |
| WinApp.HandledKeyInjectsReplacement | platforms/windows/GoNhanh/App.xaml.cs:108-117 | A handled key whose text converts is sent in at most one batch, which deletes `Backspace` characters and types exactly the non-zero code values. |
| WinApp.InvalidCodeThrows | platforms/windows/GoNhanh/App.xaml.cs:108-117 | A code that `ConvertFromUtf32` rejects leaves the key handled, raises the exception, and sends nothing. |

## Left out

- The Telex/VNI engine is an uninterpreted function parameter. `ime_init`, `ime_free`, `ime_method`, `ime_enabled` and `ime_modern` appear as counters or as the recorded engine settings.
- OS APIs are inputs or log entries: `AXIsProcessTrusted`, `CGEvent.tapCreate`, `CFMachPortCreateRunLoopSource`, event creation, `NSWorkspace.frontmostApplication` and `SendInput`. Posting an event or a batch is appending it to a trace.
- `usleep` is a `Sleep(µs)` token with no timing meaning. The thread-safety of `stop()` running against the callback is not modelled.
- The toggle notification is a boolean in the callback's outcome. `DispatchQueue` and `NotificationCenter` are left out.
- Logging (`debugLog`) and the NSAlert dialog and its System Settings link are left out. So are the single-instance mutex, the tray icon beyond its state updates, the windows, onboarding and settings persistence (a save is counted).
- The HTTP request and the JSON parsing of the update check are replaced by their outcome (`Fetch`). The `AppMetadata.Version` string is a parameter.
- MacBridge.RustBridge.ProcessKey: requires `count <= 32`. With a larger count, Swift reads past the 32-entry tuple, which is undefined behaviour and has no meaning to model.
- MacKeys.HasPrefix: compares `Character` values one by one. Swift's `hasPrefix` compares grapheme clusters, so an id in which a combining mark follows a listed prefix would match here but not in Swift. Bundle ids are ASCII, so the two agree on every real input.
- WinUpdate.ParseInt32: models `int.Parse` with ASCII white space, an optional `+`/`-` and ASCII digits. Culture-specific signs and trailing NUL characters are not modelled.
- WinApp.App.OnKeyPressed: the exception from `GetText` is reported as `thrown`. What the keyboard hook does with an exception escaping its event handler is not part of this model.
- The other `RustBridge` entry points (`setMethod`, `setEnabled`, `clearBuffer`, `Clear`) only forward a value to the engine. They are covered by the Windows settings transitions and otherwise left out.
