/** The macOS replacement dispatcher (`sendTextReplacement*` in
    platforms/macos/RustBridge.swift): each strategy is a generator of the
    synthetic events it posts, interleaved with its `usleep` calls. */
module MacReplace {
  import opened Wrappers
  import opened Utf16
  import opened EngineFfi
  import opened MacKeys

  /** One step of the synthetic output: a posted key event (virtual keycode,
      down or up, whether `.maskShift` was set on it, and the Unicode string
      attached to it) or a `usleep` of the given microseconds. */
  datatype Posted =
    | Key(code: int, down: bool, shiftMask: bool, text: seq<Unit>)
    | Sleep(micros: nat)

  /** Which `CGEventSource`/`CGEvent` creations succeed: the source, the
      pair of the deletion or selection loop at each index, and the Unicode
      pair. */
  datatype Supply = Supply(sourceCreated: bool, failedPairs: set<nat>, unicodeCreated: bool)

  const AllCreated := Supply(true, {}, true)

  function KeyPair(code: int, shiftMask: bool, text: seq<Unit>): seq<Posted> {
    [Key(code, true, shiftMask, text), Key(code, false, shiftMask, text)]
  }

  /** Iteration `i` of the backspace loop: the pair (skipped when it could
      not be created, together with its delay), then 200µs unless it is the
      last iteration. */
  function DeleteStep(i: nat, n: nat, failed: set<nat>): seq<Posted> {
    if i in failed then []
    else KeyPair(BackspaceKey, false, []) + (if i < n - 1 then [Sleep(200)] else [])
  }

  /** The first `k` iterations of the backspace loop of length `n`. */
  function DeletePairs(k: nat, n: nat, failed: set<nat>): seq<Posted> {
    if k == 0 then [] else DeletePairs(k - 1, n, failed) + DeleteStep(k - 1, n, failed)
  }

  /** Delete-then-insert: the backspaces, 800µs iff there were any, then one
      Unicode pair with the whole text and a trailing 500µs.  Nothing at all
      without an event source; nothing after the backspaces when the Unicode
      pair cannot be created. */
  function BackspaceTrace(n: nat, units: seq<Unit>, supply: Supply): seq<Posted> {
    if !supply.sourceCreated then []
    else
      DeletePairs(n, n, supply.failedPairs)
      + (if n > 0 then [Sleep(800)] else [])
      + (if supply.unicodeCreated then KeyPair(0, false, units) + [Sleep(500)] else [])
  }

  /** The first `k` iterations of the Shift+Left loop. */
  function SelectPairs(k: nat, failed: set<nat>): seq<Posted> {
    if k == 0 then []
    else SelectPairs(k - 1, failed) + (if k - 1 in failed then [] else KeyPair(LeftArrowKey, true, []))
  }

  /** Select-then-replace: `n` Shift+Left pairs, then the Unicode pair. */
  function SelectionTrace(n: nat, units: seq<Unit>, supply: Supply): seq<Posted> {
    if !supply.sourceCreated then []
    else SelectPairs(n, supply.failedPairs) + (if supply.unicodeCreated then KeyPair(0, false, units) else [])
  }

  /** `sendTextReplacementWithBackspace`. */
  method SendTextReplacementWithBackspace(backspaceCount: nat, chars: seq<int>, supply: Supply)
    returns (posted: seq<Posted>)
    requires AllScalars(chars)
    ensures posted == BackspaceTrace(backspaceCount, Encode(chars), supply)
  {
    if !supply.sourceCreated {
      return [];
    }
    posted := [];
    for i := 0 to backspaceCount
      invariant posted == DeletePairs(i, backspaceCount, supply.failedPairs)
    {
      if i !in supply.failedPairs {
        posted := posted + KeyPair(BackspaceKey, false, []);
        if i < backspaceCount - 1 {
          posted := posted + [Sleep(200)];
        }
      }
    }
    if backspaceCount > 0 {
      posted := posted + [Sleep(800)];
    }
    var utf16 := Encode(chars);
    if !supply.unicodeCreated {
      return;
    }
    posted := posted + KeyPair(0, false, utf16);
    posted := posted + [Sleep(500)];
  }

  /** `sendTextReplacementWithSelection`. */
  method SendTextReplacementWithSelection(backspaceCount: nat, chars: seq<int>, supply: Supply)
    returns (posted: seq<Posted>)
    requires AllScalars(chars)
    ensures posted == SelectionTrace(backspaceCount, Encode(chars), supply)
  {
    if !supply.sourceCreated {
      return [];
    }
    posted := [];
    if backspaceCount > 0 {
      for i := 0 to backspaceCount
        invariant posted == SelectPairs(i, supply.failedPairs)
      {
        if i !in supply.failedPairs {
          posted := posted + KeyPair(LeftArrowKey, true, []);
        }
      }
    }
    var utf16 := Encode(chars);
    if !supply.unicodeCreated {
      return;
    }
    posted := posted + KeyPair(0, false, utf16);
  }

  /** The trace of the strategy the front app selects. */
  function ReplacementTrace(front: Option<FrontApp>, n: nat, units: seq<Unit>, supply: Supply): seq<Posted> {
    if NeedsSelectionWorkaround(front) then SelectionTrace(n, units, supply) else BackspaceTrace(n, units, supply)
  }

  /** `sendTextReplacement`: asks for the front app at dispatch time and runs
      the matching strategy to completion. */
  method SendTextReplacement(front: Option<FrontApp>, backspaceCount: nat, chars: seq<int>, supply: Supply)
    returns (posted: seq<Posted>)
    requires AllScalars(chars)
    ensures posted == ReplacementTrace(front, backspaceCount, Encode(chars), supply)
  {
    if NeedsSelectionWorkaround(front) {
      posted := SendTextReplacementWithSelection(backspaceCount, chars, supply);
    } else {
      posted := SendTextReplacementWithBackspace(backspaceCount, chars, supply);
    }
  }

  // ----- Layout of a replacement when every event can be created -----

  /** Position `j` of a complete delete-then-insert trace for `n` backspaces:
      triples (down, up, delay) with 200µs between backspaces and 800µs after
      the last, then the Unicode down, up and 500µs. */
  function DirectSlot(n: nat, units: seq<Unit>, j: nat): Posted {
    if j < 3 * n then
      if j % 3 == 0 then Key(BackspaceKey, true, false, [])
      else if j % 3 == 1 then Key(BackspaceKey, false, false, [])
      else Sleep(if j / 3 < n - 1 then 200 else 800)
    else if j == 3 * n then Key(0, true, false, units)
    else if j == 3 * n + 1 then Key(0, false, false, units)
    else Sleep(500)
  }

  lemma {:induction false} DeletePairsLayout(k: nat, n: nat, units: seq<Unit>)
    requires k <= n
    ensures |DeletePairs(k, n, {})| == 3 * k - (if k == n && k > 0 then 1 else 0)
    ensures forall j :: 0 <= j < |DeletePairs(k, n, {})| ==> DeletePairs(k, n, {})[j] == DirectSlot(n, units, j)
  {
    if k > 0 {
      DeletePairsLayout(k - 1, n, units);
      var prev := DeletePairs(k - 1, n, {});
      var step := DeleteStep(k - 1, n, {});
      assert |prev| == 3 * (k - 1);
      assert DeletePairs(k, n, {}) == prev + step;
      var b := 3 * (k - 1);
      assert b % 3 == 0 && (b + 1) % 3 == 1 && (b + 2) % 3 == 2 && (b + 2) / 3 == k - 1;
      forall j | 0 <= j < |prev + step|
        ensures (prev + step)[j] == DirectSlot(n, units, j)
      {
        if j >= b {
          assert j == b || j == b + 1 || j == b + 2;
        }
      }
    }
  }

  /** With every event created, delete-then-insert posts exactly `n`
      backspace down/up pairs, with 200µs between them and 800µs after the
      last (none when `n == 0`), then one Unicode pair and 500µs. */
  lemma DirectLayout(n: nat, units: seq<Unit>)
    ensures |BackspaceTrace(n, units, AllCreated)| == 3 * n + 3
    ensures forall j :: 0 <= j < 3 * n + 3 ==> BackspaceTrace(n, units, AllCreated)[j] == DirectSlot(n, units, j)
  {
    DeletePairsLayout(n, n, units);
    var d := DeletePairs(n, n, {});
    var t := BackspaceTrace(n, units, AllCreated);
    var mid: seq<Posted> := if n > 0 then [Sleep(800)] else [];
    assert t == (d + mid) + (KeyPair(0, false, units) + [Sleep(500)]);
    if n > 0 {
      assert (3 * n - 1) % 3 == 2 && (3 * n - 1) / 3 == n - 1;
    }
    forall j | 0 <= j < 3 * n + 3
      ensures t[j] == DirectSlot(n, units, j)
    {
      if j < |d| {
        assert t[j] == d[j];
      }
    }
  }

  /** Position `j` of a complete select-then-replace trace. */
  function SelectionSlot(n: nat, units: seq<Unit>, j: nat): Posted {
    if j < 2 * n then Key(LeftArrowKey, j % 2 == 0, true, [])
    else Key(0, j == 2 * n, false, units)
  }

  lemma {:induction false} SelectPairsLayout(k: nat, n: nat, units: seq<Unit>)
    requires k <= n
    ensures |SelectPairs(k, {})| == 2 * k
    ensures forall j :: 0 <= j < 2 * k ==> SelectPairs(k, {})[j] == SelectionSlot(n, units, j)
  {
    if k > 0 {
      SelectPairsLayout(k - 1, n, units);
      var prev := SelectPairs(k - 1, {});
      var pair := KeyPair(LeftArrowKey, true, []);
      assert SelectPairs(k, {}) == prev + pair;
      var b := 2 * (k - 1);
      assert b % 2 == 0 && (b + 1) % 2 == 1;
      forall j | 0 <= j < 2 * k
        ensures (prev + pair)[j] == SelectionSlot(n, units, j)
      {
        if j >= b {
          assert j == b || j == b + 1;
        }
      }
    }
  }

  /** With every event created, select-then-replace posts exactly `n`
      Shift+Left down/up pairs and then one Unicode pair, with no delays. */
  lemma SelectionLayout(n: nat, units: seq<Unit>)
    ensures |SelectionTrace(n, units, AllCreated)| == 2 * n + 2
    ensures forall j :: 0 <= j < 2 * n + 2 ==> SelectionTrace(n, units, AllCreated)[j] == SelectionSlot(n, units, j)
  {
    SelectPairsLayout(n, n, units);
    var s := SelectPairs(n, {});
    var t := SelectionTrace(n, units, AllCreated);
    assert t == s + KeyPair(0, false, units);
    forall j | 0 <= j < 2 * n + 2
      ensures t[j] == SelectionSlot(n, units, j)
    {
      if j < 2 * n {
        assert t[j] == s[j];
      }
    }
  }

  // ----- Relations between the strategies, for any creation failures -----

  /** The key events of a trace with every backspace turned into Shift+Left
      and every delay dropped. */
  function AsSelection(t: seq<Posted>): seq<Posted> {
    if t == [] then []
    else
      (match t[0]
       case Sleep(_) => []
       case Key(code, down, shiftMask, text) =>
         if code == BackspaceKey then [Key(LeftArrowKey, down, true, text)] else [t[0]])
      + AsSelection(t[1..])
  }

  lemma {:induction false} AsSelectionAppend(a: seq<Posted>, b: seq<Posted>)
    ensures AsSelection(a + b) == AsSelection(a) + AsSelection(b)
  {
    if a == [] {
      assert a + b == b;
    } else {
      assert (a + b)[0] == a[0];
      assert (a + b)[1..] == a[1..] + b;
      AsSelectionAppend(a[1..], b);
    }
  }

  lemma {:induction false} DeleteAsSelect(k: nat, n: nat, failed: set<nat>)
    ensures AsSelection(DeletePairs(k, n, failed)) == SelectPairs(k, failed)
  {
    if k > 0 {
      DeleteAsSelect(k - 1, n, failed);
      var step := DeleteStep(k - 1, n, failed);
      AsSelectionAppend(DeletePairs(k - 1, n, failed), step);
      if k - 1 !in failed {
        var pair := KeyPair(BackspaceKey, false, []);
        var tail: seq<Posted> := if k - 1 < n - 1 then [Sleep(200)] else [];
        AsSelectionAppend(pair, tail);
        assert AsSelection(tail) == [];
        assert AsSelection(pair) == KeyPair(LeftArrowKey, true, []);
      }
    }
  }

  /** The two strategies post the same key events in the same order, except
      that each backspace of delete-then-insert is a Shift+Left of
      select-then-replace, and only delete-then-insert sleeps.  This holds
      whichever creations fail. */
  lemma StrategiesDifferOnlyInDeletionKey(n: nat, units: seq<Unit>, supply: Supply)
    ensures AsSelection(BackspaceTrace(n, units, supply)) == SelectionTrace(n, units, supply)
  {
    if supply.sourceCreated {
      var d := DeletePairs(n, n, supply.failedPairs);
      var mid: seq<Posted> := if n > 0 then [Sleep(800)] else [];
      var ins: seq<Posted> := if supply.unicodeCreated then KeyPair(0, false, units) + [Sleep(500)] else [];
      DeleteAsSelect(n, n, supply.failedPairs);
      AsSelectionAppend(d, mid);
      AsSelectionAppend(d + mid, ins);
      assert AsSelection(mid) == [];
      if supply.unicodeCreated {
        AsSelectionAppend(KeyPair(0, false, units), [Sleep(500)]);
        assert AsSelection(KeyPair(0, false, units)) == KeyPair(0, false, units);
        assert AsSelection([Sleep(500)]) == [];
      }
    }
  }

  /** The number of key-down events with the given keycode. */
  function CountDowns(t: seq<Posted>, code: int): nat {
    if t == [] then 0
    else (if t[0].Key? && t[0].code == code && t[0].down then 1 else 0) + CountDowns(t[1..], code)
  }

  lemma {:induction false} CountDownsAppend(a: seq<Posted>, b: seq<Posted>, code: int)
    ensures CountDowns(a + b, code) == CountDowns(a, code) + CountDowns(b, code)
  {
    if a == [] {
      assert a + b == b;
    } else {
      assert (a + b)[0] == a[0];
      assert (a + b)[1..] == a[1..] + b;
      CountDownsAppend(a[1..], b, code);
    }
  }

  /** The number of loop indices below `k` whose pair could be created. */
  function Created(k: nat, failed: set<nat>): nat {
    if k == 0 then 0 else Created(k - 1, failed) + (if k - 1 in failed then 0 else 1)
  }

  lemma {:induction false} DeletePairsCount(k: nat, n: nat, failed: set<nat>)
    ensures CountDowns(DeletePairs(k, n, failed), BackspaceKey) == Created(k, failed)
  {
    if k > 0 {
      DeletePairsCount(k - 1, n, failed);
      var step := DeleteStep(k - 1, n, failed);
      CountDownsAppend(DeletePairs(k - 1, n, failed), step, BackspaceKey);
      if k - 1 !in failed {
        var tail: seq<Posted> := if k - 1 < n - 1 then [Sleep(200)] else [];
        CountDownsAppend(KeyPair(BackspaceKey, false, []), tail, BackspaceKey);
        assert CountDowns(tail, BackspaceKey) == 0;
        assert CountDowns(KeyPair(BackspaceKey, false, []), BackspaceKey) == 1;
      }
    }
  }

  /** A pair that cannot be created is skipped and the loop goes on: the
      backspaces posted are exactly those of the pairs that were created.
      The Unicode pair never has the backspace keycode. */
  lemma BackspaceCount(n: nat, units: seq<Unit>, supply: Supply)
    ensures CountDowns(BackspaceTrace(n, units, supply), BackspaceKey)
         == (if supply.sourceCreated then Created(n, supply.failedPairs) else 0)
  {
    if supply.sourceCreated {
      var d := DeletePairs(n, n, supply.failedPairs);
      var mid: seq<Posted> := if n > 0 then [Sleep(800)] else [];
      var ins: seq<Posted> := if supply.unicodeCreated then KeyPair(0, false, units) + [Sleep(500)] else [];
      DeletePairsCount(n, n, supply.failedPairs);
      CountDownsAppend(d, mid, BackspaceKey);
      CountDownsAppend(d + mid, ins, BackspaceKey);
      NoDowns(mid, BackspaceKey);
      NoDowns(ins, BackspaceKey);
    }
  }

  lemma {:induction false} NoDowns(t: seq<Posted>, code: int)
    requires forall j :: 0 <= j < |t| ==> !(t[j].Key? && t[j].code == code)
    ensures CountDowns(t, code) == 0
  {
    if t != [] {
      NoDowns(t[1..], code);
    }
  }

  lemma {:induction false} SelectPairsNeverDelete(k: nat, failed: set<nat>)
    ensures forall j :: 0 <= j < |SelectPairs(k, failed)| ==>
      SelectPairs(k, failed)[j].Key? && SelectPairs(k, failed)[j].code == LeftArrowKey &&
      SelectPairs(k, failed)[j].shiftMask && SelectPairs(k, failed)[j].text == []
  {
    if k > 0 {
      SelectPairsNeverDelete(k - 1, failed);
    }
  }

  /** Select-then-replace never posts a backspace: its key events are
      Shift+Left and the Unicode pair (keycode 0). */
  lemma SelectionNeverDeletes(n: nat, units: seq<Unit>, supply: Supply)
    ensures forall j :: 0 <= j < |SelectionTrace(n, units, supply)| ==>
      SelectionTrace(n, units, supply)[j].Key? &&
      SelectionTrace(n, units, supply)[j].code != BackspaceKey
  {
    SelectPairsNeverDelete(n, supply.failedPairs);
  }

  /** With every event created, whichever strategy runs, the last key-down
      it posts is the single Unicode event, preceded by exactly `n`
      deletion or selection key-downs, and its UTF-16 payload decodes back
      to the engine's characters in order. */
  lemma ReplacementInsertsAllChars(front: Option<FrontApp>, n: nat, chars: seq<int>)
    requires AllScalars(chars)
    ensures var t := ReplacementTrace(front, n, Encode(chars), AllCreated);
      var k := if NeedsSelectionWorkaround(front) then 2 * n else 3 * n;
      k < |t| && t[k] == Key(0, true, false, Encode(chars)) && Decode(t[k].text) == Some(chars)
      && (forall j :: k < j < |t| ==> !(t[j].Key? && t[j].down))
  {
    DecodeEncode(chars);
    if NeedsSelectionWorkaround(front) {
      SelectionLayout(n, Encode(chars));
    } else {
      DirectLayout(n, Encode(chars));
    }
  }
}
