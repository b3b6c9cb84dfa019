/** How a keyboard shortcut of the host editor is written into the
    script's settings (`checkShortcutsChanged`), and how that text reads
    back. */
module Shortcuts {
  import opened Options
  import opened Decimal

  /** The shortcut the host editor holds for one of the script's actions. */
  datatype Shortcut = Shortcut(altKey: bool, shiftKey: bool, ctrlKey: bool, keyCode: nat)

  /** A shortcut with no modifier and no key. */
  const NoKeys := Shortcut(false, false, false, 0)

  /** The two actions whose shortcuts the script remembers. */
  datatype ShortcutAction = ToggleNavPoints | ToggleNavPointsNumbers

  /** `c` when `b` holds, nothing otherwise. */
  function Flag(b: bool, c: char): (s: string)
    ensures |s| <= 1
  {
    if b then [c] else []
  }

  predicate HasModifier(s: Shortcut) {
    s.altKey || s.shiftKey || s.ctrlKey
  }

  /** The settings text of a shortcut: `A`, `S`, `C` for the modifiers in
      that order, `+` when a modifier was written, then the key code in
      decimal unless it is 0. A missing shortcut is written as "". So `+`
      appears exactly when a modifier is set, and the text is empty
      exactly when there is nothing to write. */
  function EncodeShortcut(shortcut: Option<Shortcut>): (keys: string)
    ensures shortcut.None? ==> keys == ""
    ensures shortcut.Some? ==> ('+' in keys <==> HasModifier(shortcut.value))
    ensures shortcut.Some? && HasModifier(shortcut.value) ==> keys[0] in "ASC"
    ensures keys == "" <==> shortcut.None? || shortcut.value == NoKeys
    ensures shortcut.Some? && shortcut.value.keyCode == 0 ==> keys == "" || keys[|keys| - 1] == '+'
  {
    match shortcut
    case None => ""
    case Some(s) =>
      var code := KeyCodeText(s.keyCode);
      assert forall i :: 0 <= i < |code| ==> code[i] != '+';
      Flag(s.altKey, 'A') + (Flag(s.shiftKey, 'S') + (Flag(s.ctrlKey, 'C')
      + (Flag(HasModifier(s), '+') + code)))
  }

  /** The key code part: omitted when the code is 0 (JavaScript's falsy). */
  function KeyCodeText(keyCode: nat): (code: string)
    ensures AllDigits(code)
    ensures code == "" <==> keyCode == 0
    ensures code == "" || code[0] != '0'
  {
    if keyCode != 0 then NatToString(keyCode) else ""
  }

  /** Removes a leading `c`, telling whether there was one. */
  function Take(s: string, c: char): (r: (bool, string))
    ensures s == Flag(r.0, c) + r.1
  {
    if |s| > 0 && s[0] == c then (true, s[1..]) else (false, s)
  }

  /** Reads settings text back into a shortcut: the inverse of
      EncodeShortcut on the texts it produces. A key code written as "0"
      or with a leading zero is not such a text. */
  function DecodeShortcut(keys: string): Option<Shortcut> {
    var alt := Take(keys, 'A');
    var shift := Take(alt.1, 'S');
    var ctrl := Take(shift.1, 'C');
    var plus := Take(ctrl.1, '+');
    if plus.0 != (alt.0 || shift.0 || ctrl.0) || !AllDigits(plus.1) then None
    else if plus.1 != [] && plus.1[0] == '0' then None
    else Some(Shortcut(alt.0, shift.0, ctrl.0, StringToNat(plus.1)))
  }

  lemma TakeFlag(b: bool, c: char, rest: string)
    requires rest == [] || rest[0] != c
    ensures Take(Flag(b, c) + rest, c) == (b, rest)
  {
    if b {
      assert (Flag(b, c) + rest)[1..] == rest;
    } else {
      assert Flag(b, c) + rest == rest;
    }
  }

  /** Decoding reads back each part of the text in the order it was written. */
  lemma DecodeParts(alt: bool, shift: bool, ctrl: bool, code: string)
    requires AllDigits(code) && (code == [] || code[0] != '0')
    ensures DecodeShortcut(Flag(alt, 'A') + (Flag(shift, 'S') + (Flag(ctrl, 'C') + (Flag(alt || shift || ctrl, '+') + code))))
         == Some(Shortcut(alt, shift, ctrl, StringToNat(code)))
  {
    assert code == [] || IsDigit(code[0]);
    var r3 := Flag(alt || shift || ctrl, '+') + code;
    var r2 := Flag(ctrl, 'C') + r3;
    var r1 := Flag(shift, 'S') + r2;
    TakeFlag(alt || shift || ctrl, '+', code);
    TakeFlag(ctrl, 'C', r3);
    TakeFlag(shift, 'S', r2);
    TakeFlag(alt, 'A', r1);
  }

  /** Writing a shortcut and reading it back loses nothing, except that a
      missing shortcut reads back as one with no keys. */
  lemma DecodeEncodeShortcut(shortcut: Option<Shortcut>)
    ensures DecodeShortcut(EncodeShortcut(shortcut)) == Some(shortcut.GetOr(NoKeys))
  {
    var s := shortcut.GetOr(NoKeys);
    var code := KeyCodeText(s.keyCode);
    StringToNatOfNatToString(s.keyCode);
    DecodeParts(s.altKey, s.shiftKey, s.ctrlKey, code);
  }

  /** Every text DecodeShortcut accepts is the text of the shortcut it
      reads: the settings hold one text per shortcut and no other. */
  lemma EncodeDecodeShortcut(keys: string)
    requires DecodeShortcut(keys).Some?
    ensures EncodeShortcut(DecodeShortcut(keys)) == keys
  {
    var alt := Take(keys, 'A');
    var shift := Take(alt.1, 'S');
    var ctrl := Take(shift.1, 'C');
    var plus := Take(ctrl.1, '+');
    var s := DecodeShortcut(keys).value;
    if plus.1 != [] {
      NatToStringOfStringToNat(plus.1);
    }
    assert KeyCodeText(s.keyCode) == plus.1;
  }

  /** Two present shortcuts are stored as the same text only when they are
      the same shortcut. */
  lemma EncodeShortcutInjective(a: Shortcut, b: Shortcut)
    requires EncodeShortcut(Some(a)) == EncodeShortcut(Some(b))
    ensures a == b
  {
    DecodeEncodeShortcut(Some(a));
    DecodeEncodeShortcut(Some(b));
  }
}
