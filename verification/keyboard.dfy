/**
 The keydown handler's classification of a key name (the `key` property of a
 keyboard event, such as "7", "*", "Enter" or "F1") and the edit each class
 makes to the display buffer.
 */
module Keyboard {
  import opened Display

  datatype Action = Append(text: string) | Submit | Clear | Backspace | Ignore

  /** Keys that edit the display by appending: one digit, `.`, `(`, `)` or an operator. */
  predicate IsAppendKey(key: string) {
    |key| == 1 && Allowed(key[0])
  }

  /** The text an append key adds: the key itself, except `*`, shown as `×`. */
  function AppendedText(key: string): string {
    if key == "*" then [Times] else key
  }

  /** The handler's branch chain as written: its digit test is an unanchored
      search, so any key NAME holding a digit (such as "F1") takes the first
      branch and is appended verbatim. */
  function ClassifyKeyAsWritten(key: string): (a: Action)
    ensures (exists i :: 0 <= i < |key| && IsDigit(key[i])) ==> a == Append(key)
    ensures (forall i :: 0 <= i < |key| ==> !IsDigit(key[i])) ==> a == ClassifyKey(key)
  {
    if ClassTest(key, IsDigit) then Append(key)
    else if key == "+" || key == "-" || key == "*" || key == "/" then Append(if key == "*" then [Times] else key)
    else if key == "." then Append(".")
    else if key == "Enter" then Submit
    else if key == "Escape" then Clear
    else if key == "Backspace" then Backspace
    else if key == "(" || key == ")" then Append(key)
    else Ignore
  }

  /** The same chain with the digit test anchored to a single-character key. */
  function ClassifyKey(key: string): (a: Action)
    ensures a.Append? <==> IsAppendKey(key)
    ensures a.Append? ==> a.text == AppendedText(key)
    ensures a == Submit <==> key == "Enter"
    ensures a == Clear <==> key == "Escape"
    ensures a == Backspace <==> key == "Backspace"
  {
    if |key| == 1 && IsDigit(key[0]) then Append(key)
    else if key == "+" || key == "-" || key == "*" || key == "/" then Append(if key == "*" then [Times] else key)
    else if key == "." then Append(".")
    else if key == "Enter" then Submit
    else if key == "Escape" then Clear
    else if key == "Backspace" then Backspace
    else if key == "(" || key == ")" then Append(key)
    else Ignore
  }

  /** The display edit an action makes; a submit is not an edit. */
  function ApplyEdit(display: string, a: Action): string {
    match a
    case Append(text) => AppendToDisplay(display, text)
    case Clear => ClearDisplay()
    case Backspace => DeleteLast(display)
    case Submit => display
    case Ignore => display
  }

  /** What a key other than Enter does to the display buffer. */
  function EditDisplay(display: string, key: string): (r: string)
    ensures IsAppendKey(key) ==> r == display + AppendedText(key)
    ensures key == "Escape" ==> r == ""
    ensures key == "Backspace" && |display| > 0 ==> r + [display[|display| - 1]] == display
    ensures key == "Backspace" && |display| == 0 ==> r == ""
    ensures !IsAppendKey(key) && key != "Escape" && key != "Backspace" ==> r == display
  {
    ApplyEdit(display, ClassifyKey(key))
  }

  /** Every edit keeps a buffer whose normal form passes the whitelist in that state. */
  lemma EditKeepsWhitelist(display: string, key: string)
    requires PassesWhitelist(Normalise(display))
    ensures PassesWhitelist(Normalise(EditDisplay(display, key)))
  {
    var r := EditDisplay(display, key);
    if IsAppendKey(key) {
      var t := AppendedText(key);
      NormaliseAppend(display, t);
      assert Normalise(t) == [NormaliseChar(key[0])];
    } else if key == "Backspace" && |display| > 0 {
      assert r == display[..|display| - 1];
      WhitelistPrefix(display, |display| - 1);
    }
  }

  /** The as-written handler appends the name of function key F1, which then
      fails the whitelist; the anchored digit test ignores it. */
  lemma FunctionKeyNameIsAppended()
    ensures ClassifyKeyAsWritten("F1") == Append("F1")
    ensures ApplyEdit("", ClassifyKeyAsWritten("F1")) == "F1"
    ensures !PassesWhitelist(Normalise("F1"))
    ensures ClassifyKey("F1") == Ignore
  {
    assert IsDigit("F1"[1]);
    assert !Allowed(Normalise("F1")[0]);
  }
}
