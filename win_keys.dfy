/** Windows key normalisation: `VkToMacKey` in
    platforms/windows/GoNhanh/Core/RustBridge.cs translates a Windows
    virtual-key code into the macOS keycode space the engine understands. */
module WinKeys {
  import opened Wrappers
  import opened EngineFfi

  /** The translation, as the source's switch expression: listed codes map
      to their macOS keycode and every other code passes through unchanged. */
  function VkToMacKey(vk: u16): (mac: u16)
    ensures Listed(vk) ==> mac < 0x80 && MacKeyToVk(mac) == Some(vk)
    ensures !Listed(vk) ==> mac == vk
  {
    match vk
    // Letters (VK_A = 0x41 .. VK_Z = 0x5A)
    case 0x41 => 0   case 0x42 => 11  case 0x43 => 8   case 0x44 => 2
    case 0x45 => 14  case 0x46 => 3   case 0x47 => 5   case 0x48 => 4
    case 0x49 => 34  case 0x4A => 38  case 0x4B => 40  case 0x4C => 37
    case 0x4D => 46  case 0x4E => 45  case 0x4F => 31  case 0x50 => 35
    case 0x51 => 12  case 0x52 => 15  case 0x53 => 1   case 0x54 => 17
    case 0x55 => 32  case 0x56 => 9   case 0x57 => 13  case 0x58 => 7
    case 0x59 => 16  case 0x5A => 6
    // Digits (VK_0 = 0x30 .. VK_9 = 0x39)
    case 0x30 => 29  case 0x31 => 18  case 0x32 => 19  case 0x33 => 20
    case 0x34 => 21  case 0x35 => 23  case 0x36 => 22  case 0x37 => 26
    case 0x38 => 28  case 0x39 => 25
    // Space, Backspace, Tab, Return, Escape
    case 0x20 => 49  case 0x08 => 51  case 0x09 => 48  case 0x0D => 36
    case 0x1B => 53
    // Arrows: left, up, right, down
    case 0x25 => 123 case 0x26 => 126 case 0x27 => 124 case 0x28 => 125
    // Punctuation (US layout): . , / ; ' [ ] \ - = `
    case 0xBE => 47  case 0xBC => 43  case 0xBF => 44  case 0xBA => 41
    case 0xDE => 39  case 0xDB => 33  case 0xDD => 30  case 0xDC => 42
    case 0xBD => 27  case 0xBB => 24  case 0xC0 => 50
    case _ => vk
  }

  /** The codes the switch lists: letters, digits, Space, Backspace, Tab,
      Return, Escape, the arrows and the US-layout punctuation keys. */
  predicate Listed(vk: int) {
    || 0x41 <= vk <= 0x5A
    || 0x30 <= vk <= 0x39
    || vk == 0x20 || vk == 0x08 || vk == 0x09 || vk == 0x0D || vk == 0x1B
    || 0x25 <= vk <= 0x28
    || 0xBA <= vk <= 0xC0 || 0xDB <= vk <= 0xDE
  }

  /** The reverse translation, written out independently of the forward one:
      for each macOS keycode the table produces, the Windows code it comes
      from, and `None` for every other keycode. */
  function MacKeyToVk(mac: u16): (vk: Option<u16>)
  {
    match mac
    case 0 => Some(0x41)   case 11 => Some(0x42)  case 8 => Some(0x43)   case 2 => Some(0x44)
    case 14 => Some(0x45)  case 3 => Some(0x46)   case 5 => Some(0x47)   case 4 => Some(0x48)
    case 34 => Some(0x49)  case 38 => Some(0x4A)  case 40 => Some(0x4B)  case 37 => Some(0x4C)
    case 46 => Some(0x4D)  case 45 => Some(0x4E)  case 31 => Some(0x4F)  case 35 => Some(0x50)
    case 12 => Some(0x51)  case 15 => Some(0x52)  case 1 => Some(0x53)   case 17 => Some(0x54)
    case 32 => Some(0x55)  case 9 => Some(0x56)   case 13 => Some(0x57)  case 7 => Some(0x58)
    case 16 => Some(0x59)  case 6 => Some(0x5A)
    case 29 => Some(0x30)  case 18 => Some(0x31)  case 19 => Some(0x32)  case 20 => Some(0x33)
    case 21 => Some(0x34)  case 23 => Some(0x35)  case 22 => Some(0x36)  case 26 => Some(0x37)
    case 28 => Some(0x38)  case 25 => Some(0x39)
    case 49 => Some(0x20)  case 51 => Some(0x08)  case 48 => Some(0x09)  case 36 => Some(0x0D)
    case 53 => Some(0x1B)
    case 123 => Some(0x25) case 126 => Some(0x26) case 124 => Some(0x27) case 125 => Some(0x28)
    case 47 => Some(0xBE)  case 43 => Some(0xBC)  case 44 => Some(0xBF)  case 41 => Some(0xBA)
    case 39 => Some(0xDE)  case 33 => Some(0xDB)  case 30 => Some(0xDD)  case 42 => Some(0xDC)
    case 27 => Some(0xBD)  case 24 => Some(0xBB)  case 50 => Some(0xC0)
    case _ => None
  }

  /** On the listed codes the translation is injective: two different
      Windows keys never reach the engine as the same key. */
  lemma ListedKeysInjective(a: u16, b: u16)
    requires Listed(a) && Listed(b) && a != b
    ensures VkToMacKey(a) != VkToMacKey(b)
  {
  }

  /** Outside the listed codes injectivity fails: VK_CLEAR (0x0C, keypad 5
      without Num Lock) passes through as 12, which is the engine's Q. */
  lemma PassThroughMayCollide()
    ensures !Listed(0x0C) && VkToMacKey(0x0C) == VkToMacKey(0x51)
  {
  }
}
