/** Key names and X11 keysyms, in both directions. */
module KeyNames {
  import opened Wrappers

  function SpecialKeysym(n: string): (k: Option<nat>) {
    match n
    case "Space" => Some(0x0020)
    case "Return" => Some(0xff0d)
    case "Enter" => Some(0xff0d)
    case "Escape" => Some(0xff1b)
    case "Tab" => Some(0xff09)
    case "BackSpace" => Some(0xff08)
    case "Delete" => Some(0xffff)
    case "Shift" => Some(0xffe1)
    case "Shift_L" => Some(0xffe1)
    case "Shift_R" => Some(0xffe2)
    case "Control" => Some(0xffe3)
    case "Control_L" => Some(0xffe3)
    case "Ctrl" => Some(0xffe3)
    case "Control_R" => Some(0xffe4)
    case "Alt" => Some(0xffe9)
    case "Alt_L" => Some(0xffe9)
    case "Alt_R" => Some(0xffea)
    case "Up" => Some(0xff52)
    case "Down" => Some(0xff54)
    case "Left" => Some(0xff51)
    case "Right" => Some(0xff53)
    case "QuoteLeft" => Some(0x0060)
    case "Grave" => Some(0x0060)
    case "Minus" => Some(0x002d)
    case "Equal" => Some(0x003d)
    case "BracketLeft" => Some(0x005b)
    case "BracketRight" => Some(0x005d)
    case "Semicolon" => Some(0x003b)
    case "Apostrophe" => Some(0x0027)
    case "Comma" => Some(0x002c)
    case "Period" => Some(0x002e)
    case "Slash" => Some(0x002f)
    case "Backslash" => Some(0x005c)
    case "F1" => Some(0xffbe)
    case "F2" => Some(0xffbf)
    case "F3" => Some(0xffc0)
    case "F4" => Some(0xffc1)
    case "F5" => Some(0xffc2)
    case "F6" => Some(0xffc3)
    case "F7" => Some(0xffc4)
    case "F8" => Some(0xffc5)
    case "F9" => Some(0xffc6)
    case "F10" => Some(0xffc7)
    case "F11" => Some(0xffc8)
    case "F12" => Some(0xffc9)
    case _ => None
  }

  function StripPrefix(name: string): string {
    if "Key_" <= name then name[4..] else name
  }

  function NameToKeysym(name: string): (k: Option<nat>) {
    var n := StripPrefix(name);
    if |n| == 1 && 'A' <= n[0] <= 'Z' then Some(0x61 + (n[0] as int - 'A' as int))
    else if |n| == 1 && ('a' <= n[0] <= 'z' || '0' <= n[0] <= '9') then Some(n[0] as int)
    else SpecialKeysym(n)
  }

  /** The prefix of a key name does not matter. */
  lemma PrefixOptional(name: string)
    requires !("Key_" <= name)
    ensures NameToKeysym("Key_" + name) == NameToKeysym(name)
  {
    assert ("Key_" + name)[4..] == name;
  }

  /** Letters, in either case, are the lower-case letter's code and digits their own. */
  lemma LettersAndDigits(c: char)
    ensures 'a' <= c <= 'z' || '0' <= c <= '9' ==> NameToKeysym("Key_" + [c]) == NameToKeysym([c]) == Some(c as int)
    ensures 'A' <= c <= 'Z' ==> NameToKeysym("Key_" + [c]) == NameToKeysym([c]) == Some(c as int + 32)
  {
    hide SpecialKeysym;
    assert ("Key_" + [c])[4..] == [c];
  }

  function HexDigit(d: nat): char
    requires d < 16
  {
    if d < 10 then '0' + d as char else 'a' + (d - 10) as char
  }

  function HexDigits(k: nat, width: nat): string {
    if k < 16 && width <= 1 then [HexDigit(k % 16)]
    else HexDigits(k / 16, if width == 0 then 0 else width - 1) + [HexDigit(k % 16)]
  }

  function KeysymToName(k: nat): (name: string) {
    if 0x61 <= k <= 0x7a then "Key_" + ['A' + (k - 0x61) as char]
    else if 0x30 <= k <= 0x39 then "Key_" + [k as char]
    else if k == 0x0020 then "Key_Space"
    else if k == 0xff0d then "Key_Return"
    else if k == 0xff1b then "Key_Escape"
    else if k == 0xff09 then "Key_Tab"
    else if k == 0xff08 then "Key_BackSpace"
    else if k == 0xffe1 then "Key_Shift"
    else if k == 0xffe3 then "Key_Control"
    else if k == 0xffe9 then "Key_Alt"
    else if k == 0x0060 then "Key_QuoteLeft"
    else "0x" + HexDigits(k, 4)
  }

  /** The key names that survive the trip to a keysym and back. */
  predicate Recognised(name: string) {
    || (|name| == 5 && "Key_" <= name && ('A' <= name[4] <= 'Z' || '0' <= name[4] <= '9'))
    || name in {"Key_Space", "Key_Return", "Key_Escape", "Key_Tab", "Key_BackSpace", "Key_Shift", "Key_Control",
                "Key_Alt", "Key_QuoteLeft"}
  }

  lemma HexIsUnknown(n: string)
    requires |n| >= 2 && n[0] == '0'
    ensures NameToKeysym(n) == None
  {
  }

  lemma RecognisedComesBack(name: string, k: nat)
    requires NameToKeysym(name) == Some(k) && Recognised(name)
    ensures KeysymToName(k) == name
  {
    if name[4..] == [name[4]] {
      assert name == "Key_" + [name[4]];
    }
  }

  lemma OnlyRecognisedComesBack(name: string, k: nat)
    requires NameToKeysym(name) == Some(k) && KeysymToName(k) == name
    ensures Recognised(name)
  {
    hide NameToKeysym;
    if !Recognised(name) {
      HexIsUnknown(name);
    }
  }

  /** A configured key name that resolves comes back as itself exactly when it is one of the recognised spellings. */
  lemma ComesBackIff(name: string, k: nat)
    requires NameToKeysym(name) == Some(k)
    ensures KeysymToName(k) == name <==> Recognised(name)
  {
    hide NameToKeysym, KeysymToName, Recognised;
    if Recognised(name) {
      RecognisedComesBack(name, k);
    }
    if KeysymToName(k) == name {
      OnlyRecognisedComesBack(name, k);
    }
  }

  /** The keysyms the reverse table has a name for. */
  predicate Named(k: nat) {
    0x61 <= k <= 0x7a || 0x30 <= k <= 0x39
    || k in {0x0020, 0xff0d, 0xff1b, 0xff09, 0xff08, 0xffe1, 0xffe3, 0xffe9, 0x0060}
  }

  /** What the reverse table calls every other keysym. */
  function HexName(k: nat): string {
    "0x" + HexDigits(k, 4)
  }

  /** A named keysym's name resolves to it; any other keysym's name resolves to nothing. */
  lemma NamesResolve(k: nat)
    ensures if Named(k) then NameToKeysym(KeysymToName(k)) == Some(k)
            else KeysymToName(k) == HexName(k) && NameToKeysym(HexName(k)) == None
  {
    if Named(k) {
      assert KeysymToName(k)[4..] == StripPrefix(KeysymToName(k));
    } else {
      HexIsUnknown(HexName(k));
    }
  }
}
