/** The request/response contract with the external Vietnamese engine
    (`ime_key_ext` and `ime_free` in the Rust core), shared by both hosts.
    The engine itself is not modelled: it is a function parameter of type
    `Engine` whose answer for a request is either a null pointer (`None`) or a
    native result struct. */
module EngineFfi {
  import opened Wrappers

  type byte = x: int | 0 <= x < 0x100
  type u16 = x: int | 0 <= x < 0x1_0000
  type u32 = x: int | 0 <= x < 0x1_0000_0000

  /** The action byte: 0 = None, 1 = Send, 2 = Restore. */
  const ActionNone: byte := 0
  const ActionSend: byte := 1
  const ActionRestore: byte := 2

  /** The arguments of one `ime_key_ext(key, caps, ctrl, shift)` call; `key`
      is a macOS virtual keycode on both hosts. */
  datatype KeyRequest = KeyRequest(key: u16, caps: bool, ctrl: bool, shift: bool)

  /** The `#[repr(C)]` result struct.  `chars` is the inline code-value array;
      its length is the buffer capacity the host declares (32 on macOS, 64 on
      Windows). */
  datatype NativeResult = NativeResult(chars: seq<u32>, action: byte, backspace: byte, count: byte)

  /** The engine as seen from one key call: the pointer `ime_key_ext` returns. */
  type Engine = KeyRequest -> Option<NativeResult>

  /** The reply matches the struct layout the host declares. */
  predicate HasCapacity(reply: Option<NativeResult>, capacity: nat) {
    reply.Some? ==> |reply.value.chars| == capacity
  }
}
