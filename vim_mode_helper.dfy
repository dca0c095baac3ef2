/**
  The modal key dispatcher of MacDown's vim mode (VimModeHelper.swift).

  A key event is reduced to its 16-bit hardware key code. The text-view
  cursor moves that a mapped key triggers are not executed: the dispatcher
  reports which move it ran as a `Move` tag inside its `Reply`.
*/
module VimMode {

  import opened Optional

  /** Swift's `UInt16`, the type of `NSEvent.keyCode`. */
  newtype UInt16 = x: int | 0 <= x < 0x1_0000

  /** The `KEYCODE` enum; each case carries its raw `UInt16` value. */
  datatype KeyCode = EscapeKey | HCode | ICode | JCode | KCode | LCode
  {
    function RawValue(): (raw: UInt16)
    {
      match this
      case EscapeKey => 0x35
      case HCode => 0x4
      case ICode => 0x22
      case JCode => 0x26
      case KCode => 0x28
      case LCode => 0x25
    }
  }

  /** `KEYCODE(rawValue:)`: the enum case with the given raw value, if any. */
  function KeyCodeOf(raw: UInt16): (k: Option<KeyCode>)
    ensures forall c: KeyCode :: k == Some(c) <==> c.RawValue() == raw
  {
    if raw == 0x35 then Some(EscapeKey)
    else if raw == 0x4 then Some(HCode)
    else if raw == 0x22 then Some(ICode)
    else if raw == 0x26 then Some(JCode)
    else if raw == 0x28 then Some(KCode)
    else if raw == 0x25 then Some(LCode)
    else None
  }

  datatype Mode = Normal | Insert

  /** The four `NSTextView` cursor moves, as opaque tags. */
  datatype Move = MoveUp | MoveDown | MoveLeft | MoveRight

  /**
    What the dispatcher did with one key: `Handled` is a `true` return
    (carrying the move it ran, if any), `Unhandled` a `false` return, and
    `Trapped` the runtime fault of force-unwrapping a missing mapping.
  */
  datatype Reply = Handled(ran: Option<Move>) | Unhandled | Trapped

  /**
    The table the initializer stores in `functionKeyMappings`: it maps
    every key that `SpecialKeyCode` accepts except Escape, and no two keys
    to the same move.
  */
  function DefaultKeyMappings(): (m: map<KeyCode, Move>)
    ensures forall k: KeyCode :: k in m <==> SpecialKeyCode(k.RawValue()) && k != EscapeKey
    ensures forall k1, k2 :: k1 in m && k2 in m && k1 != k2 ==> m[k1] != m[k2]
  {
    map[HCode := MoveLeft, JCode := MoveDown, KCode := MoveUp, LCode := MoveRight]
  }

  /** `specialKeyCode`: a key of the enum other than I. */
  function SpecialKeyCode(keyCode: UInt16): (special: bool)
    ensures special <==> keyCode in {0x35, 0x4, 0x26, 0x28, 0x25}
  {
    var t := KeyCodeOf(keyCode);
    t.Some? && t != Some(ICode)
  }

  /**
    Reference definition of one dispatch step, organised by mode and then
    by key: the new mode and the reply for `keyCode` when the helper is in
    `mode` with the given mapping table.
  */
  function Dispatch(mode: Mode, mappings: Option<map<KeyCode, Move>>, keyCode: UInt16): (out: (Mode, Reply))
    ensures mode == Insert && keyCode == 0x35 ==> out == (Normal, Handled(None))
    ensures mode == Insert && keyCode != 0x35 ==> out == (Insert, Unhandled)
    ensures mode == Normal && keyCode == 0x22 ==> out == (Insert, Handled(None))
    ensures mode == Normal && KeyCodeOf(keyCode).None? ==> out == (Normal, Unhandled)
    ensures mode == Normal && mappings.None? && keyCode != 0x22 ==> out == (Normal, Unhandled)
    ensures mode == Normal && mappings.Some? && SpecialKeyCode(keyCode) ==>
      var k := KeyCodeOf(keyCode).value;
      out == (Normal, if k in mappings.value then Handled(Some(mappings.value[k])) else Trapped)
    ensures out.1.Handled? && out.1.ran.Some? ==> mode == Normal && out.0 == Normal
    ensures out.0 != mode ==> out.1 == Handled(None)
  {
    match mode
    case Insert =>
      if KeyCodeOf(keyCode) == Some(EscapeKey) then (Normal, Handled(None)) else (Insert, Unhandled)
    case Normal =>
      match KeyCodeOf(keyCode)
      case None => (Normal, Unhandled)
      case Some(ICode) => (Insert, Handled(None))
      case Some(k) =>
        match mappings
        case None => (Normal, Unhandled)
        case Some(m) => if k in m then (Normal, Handled(Some(m[k]))) else (Normal, Trapped)
  }

  /** With the initializer's table, NORMAL mode acts on exactly H, J, K, L, I and (fatally) Escape. */
  lemma NormalModeWithDefaultMappings(keyCode: UInt16)
    ensures Dispatch(Normal, Some(DefaultKeyMappings()), keyCode) ==
      if keyCode == 0x4 then (Normal, Handled(Some(MoveLeft)))
      else if keyCode == 0x26 then (Normal, Handled(Some(MoveDown)))
      else if keyCode == 0x28 then (Normal, Handled(Some(MoveUp)))
      else if keyCode == 0x25 then (Normal, Handled(Some(MoveRight)))
      else if keyCode == 0x22 then (Insert, Handled(None))
      else if keyCode == 0x35 then (Normal, Trapped)
      else (Normal, Unhandled)
  {
  }

  class VimModeHelper {

    var functionKeyMappings: Option<map<KeyCode, Move>>
    var currentMode: Mode

    constructor ()
      ensures currentMode == Insert
      ensures functionKeyMappings == Some(DefaultKeyMappings())
    {
      currentMode := Insert;
      functionKeyMappings := Some(DefaultKeyMappings());
    }

    method EnterNormalMode()
      modifies this`currentMode
      ensures currentMode == Normal
    {
      currentMode := Normal;
    }

    method EnterInsertMode()
      modifies this`currentMode
      ensures currentMode == Insert
    {
      currentMode := Insert;
    }

    /**
      The key handler (`ayylmao` in the source): a chain of guarded early
      returns, in the source's order.
    */
    method HandleKey(keyCode: UInt16) returns (reply: Reply)
      modifies this`currentMode
      ensures (currentMode, reply) == Dispatch(old(currentMode), functionKeyMappings, keyCode)
    {
      if currentMode == Insert && KeyCodeOf(keyCode) == Some(EscapeKey) {
        EnterNormalMode();
        return Handled(None);
      }
      if currentMode == Normal && KeyCodeOf(keyCode) == Some(ICode) {
        EnterInsertMode();
        return Handled(None);
      }
      if functionKeyMappings.Some? {
        var mappings := functionKeyMappings.value;
        if currentMode == Normal && SpecialKeyCode(keyCode) {
          var k := KeyCodeOf(keyCode).value;
          if k !in mappings {
            return Trapped;
          }
          return Handled(Some(mappings[k]));
        }
      }
      return Unhandled;
    }
  }
}
