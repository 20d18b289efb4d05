/** The viewer's `keydown` handler: which commands one key press issues. The
    handler runs three independent checks in turn (the `switch` on the key, the
    quick-move digit check, the Ctrl+Z check), so a press issues the commands of
    every check that fires, in that order. The `Session` handlers carry the
    commands out (`Previous`, `Next`, `DeleteCurrentImage` for `Delete`,
    `HandleUndo` for `Undo`, `MoveCurrentFile` for `PickMoveFolder`,
    `MoveToQuickFolder` for `QuickMove`); this module only decides which of them
    a key press calls, and full screen is not modelled. */
module Keys {
  import opened Wrappers
  import opened Paths
  import opened Text

  datatype Command =
    | Previous             // ArrowLeft: step back when not at the first file
    | Next                 // ArrowRight: step on when not at the last file
    | Delete               // ArrowUp: `deleteCurrentImage`
    | Undo                 // ArrowDown or Ctrl+Z: `handleUndo`
    | ToggleFullscreen     // f
    | PickMoveFolder       // m: `moveCurrentFile`
    | QuickMove(folder: Path)   // 1-9: `moveToQuickFolder(folders[key - 1])`

  /** The `switch (event.key)` arm that fires, if any. */
  function SwitchCommand(key: string): (c: Option<Command>)
    ensures c.Some? <==> key in {"ArrowLeft", "ArrowRight", "ArrowUp", "ArrowDown", "f", "m"}
    ensures c.Some? ==> !c.value.QuickMove?
  {
    if key == "ArrowLeft" then Some(Previous)
    else if key == "ArrowRight" then Some(Next)
    else if key == "ArrowUp" then Some(Delete)
    else if key == "ArrowDown" then Some(Undo)
    else if key == "f" then Some(ToggleFullscreen)
    else if key == "m" then Some(PickMoveFolder)
    else None
  }

  /** `!isNaN(key)`: `Number(key)` is a number. Key values that convert are strings of
      decimal digits and strings of white space only (which convert to 0). */
  predicate IsNumeric(key: string)
  {
    (key != [] && AllDigits(key)) || forall i :: 0 <= i < |key| ==> IsWhitespace(key[i])
  }

  /** The quick-move check: without Ctrl or Alt, a numeric key other than "0"
      whose `parseInt(key) - 1` is a slot of the current group moves to that
      slot's folder. `parseInt` of white space is NaN, which is no slot. */
  function QuickSlotCommand(key: string, ctrl: bool, alt: bool, folders: seq<Path>): (c: Option<Command>)
    ensures c.Some? ==> !ctrl && !alt && key != "0" && c.value.QuickMove? && c.value.folder in folders
  {
    if !ctrl && !alt && IsNumeric(key) && key != "0" then
      match ParseInt(key)
      case None => None
      case Some(n) => if 0 <= n - 1 < |folders| then Some(QuickMove(folders[n - 1])) else None
    else None
  }

  /** `event.ctrlKey && event.key.toLowerCase() === 'z'`. */
  predicate IsUndoChord(key: string, ctrl: bool)
  {
    ctrl && FoldCaseAll(key) == "z"
  }

  function OptionToSeq<T>(o: Option<T>): (s: seq<T>)
    ensures o.Some? ==> s == [o.value]
    ensures o.None? ==> s == []
  {
    if o.Some? then [o.value] else []
  }

  /** The commands one key press issues, in the order the handler issues them. */
  function KeyCommands(key: string, ctrl: bool, alt: bool, folders: seq<Path>): (cs: seq<Command>)
    ensures |cs| <= 3
  {
    OptionToSeq(SwitchCommand(key)) + OptionToSeq(QuickSlotCommand(key, ctrl, alt, folders))
      + (if IsUndoChord(key, ctrl) then [Undo] else [])
  }

  /** The `switch` arm's command, when one fires, comes first. */
  lemma SwitchCommandFirst(key: string, ctrl: bool, alt: bool, folders: seq<Path>)
    requires SwitchCommand(key).Some?
    ensures var cs := KeyCommands(key, ctrl, alt, folders); cs != [] && cs[0] == SwitchCommand(key).value
  {
    var sw := OptionToSeq(SwitchCommand(key));
    var rest := OptionToSeq(QuickSlotCommand(key, ctrl, alt, folders)) + (if IsUndoChord(key, ctrl) then [Undo] else []);
    assert KeyCommands(key, ctrl, alt, folders) == sw + rest;
  }

  /** A key press issues undo exactly for the Down arrow or Ctrl+Z. */
  lemma UndoExactlyForDownOrCtrlZ(key: string, ctrl: bool, alt: bool, folders: seq<Path>)
    ensures Undo in KeyCommands(key, ctrl, alt, folders) <==> key == "ArrowDown" || IsUndoChord(key, ctrl)
  {
    var sw, qs := OptionToSeq(SwitchCommand(key)), OptionToSeq(QuickSlotCommand(key, ctrl, alt, folders));
    var un: seq<Command> := if IsUndoChord(key, ctrl) then [Undo] else [];
    assert KeyCommands(key, ctrl, alt, folders) == sw + qs + un;
    assert Undo !in qs;
    assert Undo in sw <==> key == "ArrowDown";
  }

  /** A quick move is issued only without Ctrl or Alt, and only to a folder of
      the current group. */
  lemma QuickMoveNeedsNoModifier(key: string, ctrl: bool, alt: bool, folders: seq<Path>)
    ensures forall c :: c in KeyCommands(key, ctrl, alt, folders) && c.QuickMove? ==> !ctrl && !alt && c.folder in folders
  {
    var sw, qs := OptionToSeq(SwitchCommand(key)), OptionToSeq(QuickSlotCommand(key, ctrl, alt, folders));
    var un: seq<Command> := if IsUndoChord(key, ctrl) then [Undo] else [];
    assert KeyCommands(key, ctrl, alt, folders) == sw + qs + un;
    forall c | c in sw + qs + un && c.QuickMove?
      ensures !ctrl && !alt && c.folder in folders
    {
      assert c in qs;
    }
  }

  /** `parseInt` of one decimal digit is that digit's value. */
  lemma ParseSingleDigit(key: string)
    requires |key| == 1 && IsDigit(key[0])
    ensures var n := ParseInt(key); n.Some? && n.value == DigitValue(key[0])
  {
    ParseIntOfDigits(key);
    assert key[..0] == [];
  }

  /** `parseInt` of one white-space character is NaN. */
  lemma ParseWhitespaceChar(key: string)
    requires |key| == 1 && IsWhitespace(key[0])
    ensures ParseInt(key).None?
  {
    assert key[1..] == [];
  }

  /** A key whose first character is neither a digit, white space nor a `z` of
      either case issues at most its `switch` command. */
  lemma OnlySwitchFires(key: string, ctrl: bool, alt: bool, folders: seq<Path>)
    requires key != [] && !IsDigit(key[0]) && !IsWhitespace(key[0]) && FoldCase(key[0]) != 'z'
    ensures KeyCommands(key, ctrl, alt, folders) == OptionToSeq(SwitchCommand(key))
  {
    assert !IsNumeric(key);
    assert FoldCaseAll(key)[0] != 'z';
  }

  /** Digit keys 1 to 9 select slot `key - 1` of the current group, only when
      that slot is filled and neither Ctrl nor Alt is held. */
  lemma DigitKeySelectsSlot(key: string, ctrl: bool, alt: bool, folders: seq<Path>)
    requires |key| == 1 && '1' <= key[0] <= '9'
    ensures var slot := key[0] as int - '1' as int;
      KeyCommands(key, ctrl, alt, folders) == if !ctrl && !alt && slot < |folders| then [QuickMove(folders[slot])] else []
  {
    ParseSingleDigit(key);
    assert IsNumeric(key) && key != "0";
    assert SwitchCommand(key).None?;
    assert !IsUndoChord(key, ctrl) by {
      assert FoldCaseAll(key)[0] == key[0];
    }
  }

  /** The key "0" never moves a file, whatever the modifiers and slots. */
  lemma ZeroKeyDoesNothing(ctrl: bool, alt: bool, folders: seq<Path>)
    ensures KeyCommands("0", ctrl, alt, folders) == []
  {
    assert FoldCaseAll("0")[0] == '0';
  }

  /** Of the one-character keys, only the digits 1 to 9 can trigger a quick move:
      `parseInt` of a white-space key is NaN. */
  lemma QuickMoveOnlyFromDigits(key: string, ctrl: bool, alt: bool, folders: seq<Path>)
    requires |key| == 1 && !('1' <= key[0] <= '9')
    ensures QuickSlotCommand(key, ctrl, alt, folders).None?
  {
    if key[0] == '0' {
      assert key == "0";
    } else if IsWhitespace(key[0]) {
      ParseWhitespaceChar(key);
    } else {
      assert !IsNumeric(key);
    }
  }

  /** Ctrl+Z with either letter case undoes once; with Ctrl held no digit moves. */
  lemma CtrlZUndoes(alt: bool, folders: seq<Path>)
    ensures KeyCommands("z", true, alt, folders) == [Undo]
    ensures KeyCommands("Z", true, alt, folders) == [Undo]
  {
    assert FoldCaseAll("Z")[0] == 'z';
    assert FoldCaseAll("z")[0] == 'z';
  }

  /** The arrow keys issue exactly their own command, held modifiers or not. */
  lemma ArrowKeysIssueOneCommand(ctrl: bool, alt: bool, folders: seq<Path>)
    ensures KeyCommands("ArrowLeft", ctrl, alt, folders) == [Previous]
    ensures KeyCommands("ArrowRight", ctrl, alt, folders) == [Next]
    ensures KeyCommands("ArrowUp", ctrl, alt, folders) == [Delete]
    ensures KeyCommands("ArrowDown", ctrl, alt, folders) == [Undo]
  {
    OnlySwitchFires("ArrowLeft", ctrl, alt, folders);
    OnlySwitchFires("ArrowRight", ctrl, alt, folders);
    OnlySwitchFires("ArrowUp", ctrl, alt, folders);
    OnlySwitchFires("ArrowDown", ctrl, alt, folders);
  }
}
