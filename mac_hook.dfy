/** The macOS interceptor: `KeyboardHookManager` (the event-tap lifecycle)
    and `keyboardCallback` (the per-event routing) in
    platforms/macos/RustBridge.swift.  Calls into the OS are recorded in an
    ordered log; their success or failure is an input. */
module MacHook {
  import opened Wrappers
  import opened Utf16
  import opened EngineFfi
  import opened MacKeys
  import opened MacBridge
  import opened MacReplace

  /** Where `CGEvent.tapCreate` installs the tap. */
  datatype TapLocation = HidEventTap | SessionEventTap | AnnotatedSessionEventTap

  /** `start` tries these locations in this order. */
  const TapOrder: seq<TapLocation> := [HidEventTap, SessionEventTap, AnnotatedSessionEventTap]

  /** The OS calls the hook manager and the callback make. */
  datatype OsCall =
    | PromptAccessibility                        // AXIsProcessTrustedWithOptions with the prompt
    | CreateTap(location: TapLocation)           // CGEvent.tapCreate
    | ShowPermissionAlert                        // the alert queued when no tap could be created
    | AddRunLoopSource                           // CFRunLoopAddSource
    | RemoveRunLoopSource                        // CFRunLoopRemoveSource
    | EnableTap(location: TapLocation, enable: bool)  // CGEvent.tapEnable

  /** Which path `start` took (the source logs it; the model returns it). */
  datatype StartOutcome = AlreadyRunning | PermissionRequested | NoTap | NoRunLoopSource | Started

  /** The locations `start` tries, in order, up to and including the first
      at which `tapCreate` succeeds. */
  function Attempts(canCreate: TapLocation -> bool): (tried: seq<TapLocation>)
    ensures 1 <= |tried| <= |TapOrder| && tried == TapOrder[..|tried|]
    ensures forall i :: 0 <= i < |tried| - 1 ==> !canCreate(tried[i])
    ensures |tried| < |TapOrder| ==> canCreate(tried[|tried| - 1])
  {
    if canCreate(HidEventTap) then [HidEventTap]
    else if canCreate(SessionEventTap) then [HidEventTap, SessionEventTap]
    else TapOrder
  }

  /** The tap `start` ends up with: the first location in `TapOrder` that
      works, and none when no location works. */
  function FirstTap(canCreate: TapLocation -> bool): (tap: Option<TapLocation>)
    ensures tap.None? <==> forall i :: 0 <= i < |TapOrder| ==> !canCreate(TapOrder[i])
    ensures tap.Some? ==>
      (exists i :: 0 <= i < |TapOrder| && TapOrder[i] == tap.value && canCreate(TapOrder[i])
        && forall k :: 0 <= k < i ==> !canCreate(TapOrder[k]))
    ensures tap.Some? ==> tap.value == Attempts(canCreate)[|Attempts(canCreate)| - 1]
  {
    assert TapOrder[0] == HidEventTap && TapOrder[1] == SessionEventTap;
    assert TapOrder[2] == AnnotatedSessionEventTap;
    if canCreate(HidEventTap) then Some(HidEventTap)
    else if canCreate(SessionEventTap) then Some(SessionEventTap)
    else if canCreate(AnnotatedSessionEventTap) then Some(AnnotatedSessionEventTap)
    else None
  }

  function CreateCalls(tried: seq<TapLocation>): (calls: seq<OsCall>)
    ensures |calls| == |tried|
    ensures forall i :: 0 <= i < |tried| ==> calls[i] == CreateTap(tried[i])
  {
    if tried == [] then [] else [CreateTap(tried[0])] + CreateCalls(tried[1..])
  }

  class KeyboardHookManager {
    var eventTap: Option<TapLocation>
    /** Whether a run-loop source for the tap exists. */
    var runLoopSource: bool
    var isRunning: bool
    /** Every OS call made so far, in order. */
    var osLog: seq<OsCall>

    /** Running means a tap and its run-loop source exist. */
    predicate Valid()
      reads this
    {
      isRunning ==> eventTap.Some? && runLoopSource
    }

    constructor ()
      ensures Valid()
      ensures eventTap == None && !runLoopSource && !isRunning && osLog == []
    {
      eventTap := None;
      runLoopSource := false;
      isRunning := false;
      osLog := [];
    }

    /** `start`.  `trusted` is the answer of `AXIsProcessTrusted`,
        `canCreate` says at which locations `tapCreate` succeeds and
        `sourceCreated` whether `CFMachPortCreateRunLoopSource` does. */
    method Start(bridge: RustBridge, trusted: bool, canCreate: TapLocation -> bool, sourceCreated: bool)
      returns (outcome: StartOutcome)
      requires Valid()
      modifies this, bridge
      ensures Valid()
      ensures old(isRunning) ==> outcome == AlreadyRunning && unchanged(this) && unchanged(bridge)
      ensures !old(isRunning) && !trusted ==>
        && outcome == PermissionRequested && unchanged(bridge)
        && osLog == old(osLog) + [PromptAccessibility]
        && !isRunning && eventTap == old(eventTap) && runLoopSource == old(runLoopSource)
      ensures !old(isRunning) && trusted ==>
        && bridge.isInitialized
        && bridge.initCalls == old(bridge.initCalls) + (if old(bridge.isInitialized) then 0 else 1)
        && var tap := FirstTap(canCreate);
           var tries := CreateCalls(Attempts(canCreate));
           if tap.None? then
             && outcome == NoTap && !isRunning
             && osLog == old(osLog) + tries + [ShowPermissionAlert]
             && eventTap == old(eventTap) && runLoopSource == old(runLoopSource)
           else
             && eventTap == tap && runLoopSource == sourceCreated && isRunning == sourceCreated
             && outcome == (if sourceCreated then Started else NoRunLoopSource)
             && osLog == old(osLog) + tries
                  + (if sourceCreated then [AddRunLoopSource, EnableTap(tap.value, true)] else [])
    {
      if isRunning {
        return AlreadyRunning;
      }
      if !trusted {
        osLog := osLog + [PromptAccessibility];
        return PermissionRequested;
      }
      bridge.Initialize();

      var tap: Option<TapLocation> := None;
      osLog := osLog + [CreateTap(HidEventTap)];
      if canCreate(HidEventTap) {
        tap := Some(HidEventTap);
      }
      if tap.None? {
        osLog := osLog + [CreateTap(SessionEventTap)];
        if canCreate(SessionEventTap) {
          tap := Some(SessionEventTap);
        }
      }
      if tap.None? {
        osLog := osLog + [CreateTap(AnnotatedSessionEventTap)];
        if canCreate(AnnotatedSessionEventTap) {
          tap := Some(AnnotatedSessionEventTap);
        }
      }
      assert osLog == old(osLog) + CreateCalls(Attempts(canCreate));
      if tap.None? {
        osLog := osLog + [ShowPermissionAlert];
        return NoTap;
      }
      eventTap := tap;
      runLoopSource := sourceCreated;
      if runLoopSource {
        osLog := osLog + [AddRunLoopSource, EnableTap(tap.value, true)];
        isRunning := true;
        return Started;
      }
      return NoRunLoopSource;
    }

    /** `stop`: a no-op when not running; otherwise disables the tap,
        removes the source and forgets both. */
    method Stop()
      requires Valid()
      modifies this
      ensures Valid()
      ensures !old(isRunning) ==> unchanged(this)
      ensures old(isRunning) ==>
        && !isRunning && eventTap == None && !runLoopSource
        && osLog == old(osLog) + [EnableTap(old(eventTap).value, false), RemoveRunLoopSource]
    {
      if !isRunning {
        return;
      }
      if eventTap.Some? {
        osLog := osLog + [EnableTap(eventTap.value, false)];
      }
      if runLoopSource {
        osLog := osLog + [RemoveRunLoopSource];
      }
      eventTap := None;
      runLoopSource := false;
      isRunning := false;
    }
  }

  // ----- The per-event callback -----

  datatype EventType = KeyDown | KeyUp | FlagsChanged | TapDisabledByTimeout | TapDisabledByUserInput

  /** What the callback returns: the event itself or nil. */
  datatype Verdict = PassThrough | Consume

  /** Everything one callback invocation does: its verdict, the tap it
      re-enabled, the engine call it made, the events it posted and whether
      it queued the toggle notification. */
  datatype Outcome = Outcome(
    verdict: Verdict,
    reEnabled: Option<TapLocation>,
    request: Option<KeyRequest>,
    posted: seq<Posted>,
    toggleNotified: bool)

  /** The engine's reply for this key fits the 32-entry result struct. */
  predicate EngineFits(initialized: bool, engine: Engine, keyCode: u16, flags: Flags) {
    initialized ==> FitsMacBuffer(engine(EngineRequest(keyCode, flags)))
  }

  /** The routing `keyboardCallback` performs, given the hook's tap, whether
      the bridge is initialised, the engine, the front app at dispatch time
      and which event creations succeed. */
  function Route(eventType: EventType, keyCode: u16, flags: Flags, tap: Option<TapLocation>,
                 initialized: bool, engine: Engine, front: Option<FrontApp>, supply: Supply): Outcome
    requires EngineFits(initialized, engine, keyCode, flags)
  {
    if eventType == TapDisabledByTimeout || eventType == TapDisabledByUserInput then
      Outcome(PassThrough, tap, None, [], false)
    else if eventType != KeyDown then
      Outcome(PassThrough, None, None, [], false)
    else if IsToggleHotkey(keyCode, flags) then
      Outcome(Consume, None, None, [], true)
    else
      var req := EngineRequest(keyCode, flags);
      var request := if initialized then Some(req) else None;
      var decision := if initialized then Decision(engine(req)) else None;
      match decision
      case None => Outcome(PassThrough, None, request, [], false)
      case Some(rep) =>
        Outcome(Consume, None, request, ReplacementTrace(front, rep.backspace, Encode(rep.chars), supply), false)
  }

  /** `keyboardCallback`.  Returns what `Route` describes, plus how many
      times the engine result was released. */
  method KeyboardCallback(hook: KeyboardHookManager, bridge: RustBridge, eventType: EventType,
                          keyCode: u16, flags: Flags, engine: Engine, front: Option<FrontApp>, supply: Supply)
    returns (verdict: Verdict, request: Option<KeyRequest>, posted: seq<Posted>, toggleNotified: bool, freed: nat)
    requires EngineFits(bridge.isInitialized, engine, keyCode, flags)
    modifies hook
    ensures var o := Route(eventType, keyCode, flags, old(hook.eventTap), bridge.isInitialized, engine, front, supply);
      && verdict == o.verdict && request == o.request && posted == o.posted && toggleNotified == o.toggleNotified
      && hook.osLog == old(hook.osLog) + (if o.reEnabled.Some? then [EnableTap(o.reEnabled.value, true)] else [])
    ensures hook.eventTap == old(hook.eventTap) && hook.runLoopSource == old(hook.runLoopSource)
    ensures hook.isRunning == old(hook.isRunning)
    ensures freed == (if request.Some? && engine(request.value).Some? then 1 else 0)
  {
    toggleNotified, freed, request, posted := false, 0, None, [];
    if eventType == TapDisabledByTimeout || eventType == TapDisabledByUserInput {
      if hook.eventTap.Some? {
        hook.osLog := hook.osLog + [EnableTap(hook.eventTap.value, true)];
      }
      return PassThrough, request, posted, toggleNotified, freed;
    }
    if eventType != KeyDown {
      return PassThrough, request, posted, toggleNotified, freed;
    }
    if IsToggleHotkey(keyCode, flags) {
      toggleNotified := true;  // DispatchQueue.main.async { post(.toggleVietnamese) }
      return Consume, request, posted, toggleNotified, freed;
    }
    var req := EngineRequest(keyCode, flags);
    var decision;
    decision, request, freed := bridge.ProcessKey(engine, keyCode, req.caps, req.ctrl, req.shift);
    if decision.Some? {
      posted := SendTextReplacement(front, decision.value.backspace, decision.value.chars, supply);
      return Consume, request, posted, toggleNotified, freed;
    }
    return PassThrough, request, posted, toggleNotified, freed;
  }

  // ----- Properties of the routing -----

  /** A passed-through event never comes with synthetic events or a toggle. */
  lemma PassThroughIsSilent(eventType: EventType, keyCode: u16, flags: Flags, tap: Option<TapLocation>,
                            initialized: bool, engine: Engine, front: Option<FrontApp>, supply: Supply)
    requires EngineFits(initialized, engine, keyCode, flags)
    ensures Route(eventType, keyCode, flags, tap, initialized, engine, front, supply).verdict == PassThrough ==>
      Route(eventType, keyCode, flags, tap, initialized, engine, front, supply).posted == [] &&
      !Route(eventType, keyCode, flags, tap, initialized, engine, front, supply).toggleNotified
  {
  }

  /** Tap-disabled events and every event other than a key-down pass
      through untouched: no engine call, nothing posted, no toggle. */
  lemma NonKeyDownPassesThrough(eventType: EventType, keyCode: u16, flags: Flags, tap: Option<TapLocation>,
                                initialized: bool, engine: Engine, front: Option<FrontApp>, supply: Supply)
    requires EngineFits(initialized, engine, keyCode, flags)
    ensures eventType != KeyDown ==>
      var o := Route(eventType, keyCode, flags, tap, initialized, engine, front, supply);
      o.verdict == PassThrough && o.request == None && o.posted == [] && !o.toggleNotified
  {
  }

  /** Ctrl+Space is consumed and signalled without consulting the engine,
      whatever the engine would answer. */
  lemma HotkeyConsumedWithoutEngine(keyCode: u16, flags: Flags, tap: Option<TapLocation>,
                                    initialized: bool, engine: Engine, front: Option<FrontApp>, supply: Supply)
    requires IsToggleHotkey(keyCode, flags)
    requires EngineFits(initialized, engine, keyCode, flags)
    ensures Route(KeyDown, keyCode, flags, tap, initialized, engine, front, supply)
         == Outcome(Consume, None, None, [], true)
  {
  }

  /** Only a tap-disabled event re-enables the tap, and it re-enables the
      tap the manager holds. */
  lemma OnlyTapDisabledReEnables(eventType: EventType, keyCode: u16, flags: Flags, tap: Option<TapLocation>,
                                 initialized: bool, engine: Engine, front: Option<FrontApp>, supply: Supply)
    requires EngineFits(initialized, engine, keyCode, flags)
    ensures Route(eventType, keyCode, flags, tap, initialized, engine, front, supply).reEnabled
         == (if eventType == TapDisabledByTimeout || eventType == TapDisabledByUserInput then tap else None)
  {
  }

  /** An ordinary key-down goes to the engine with the normalised modifiers
      (when the engine is initialised) and is consumed exactly when the
      engine answers Send (action 1); None and Restore pass it through. */
  lemma KeyDownConsumedIffSend(keyCode: u16, flags: Flags, tap: Option<TapLocation>,
                               initialized: bool, engine: Engine, front: Option<FrontApp>, supply: Supply)
    requires !IsToggleHotkey(keyCode, flags)
    requires EngineFits(initialized, engine, keyCode, flags)
    ensures var o := Route(KeyDown, keyCode, flags, tap, initialized, engine, front, supply);
      var req := KeyRequest(keyCode, flags.shift || flags.alphaShift,
                            flags.command || flags.control || flags.alternate, flags.shift);
      && o.request == (if initialized then Some(req) else None)
      && (o.verdict == Consume <==>
            initialized && engine(req).Some? && engine(req).value.action == ActionSend)
      && !o.toggleNotified
  {
  }

  /** When the engine answers Send and every event can be created, the
      consumed key is replaced: the posted trace holds one Unicode key-down
      whose payload is the UTF-16 form of the scalars among the engine's
      first `count` code values, after exactly `backspace` deletion or
      selection key-downs. */
  lemma SendIsFullyReplaced(keyCode: u16, flags: Flags, tap: Option<TapLocation>,
                            engine: Engine, front: Option<FrontApp>)
    requires !IsToggleHotkey(keyCode, flags)
    requires EngineFits(true, engine, keyCode, flags)
    requires engine(EngineRequest(keyCode, flags)).Some?
    requires engine(EngineRequest(keyCode, flags)).value.action == ActionSend
    ensures var n := engine(EngineRequest(keyCode, flags)).value;
      var chars := Scalars(n.chars[..n.count]);
      var t := Route(KeyDown, keyCode, flags, tap, true, engine, front, AllCreated).posted;
      var k := if NeedsSelectionWorkaround(front) then 2 * n.backspace else 3 * n.backspace;
      && Route(KeyDown, keyCode, flags, tap, true, engine, front, AllCreated).verdict == Consume
      && k < |t| && t[k] == Key(0, true, false, Encode(chars)) && Decode(t[k].text) == Some(chars)
  {
    var n := engine(EngineRequest(keyCode, flags)).value;
    ReplacementInsertsAllChars(front, n.backspace, Scalars(n.chars[..n.count]));
  }
}
