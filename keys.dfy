/** How one key read by `getch` moves the picker: Enter ends the session,
    the backspace codes delete the last query character, a printable
    character is appended, every other code is ignored. */
module Keys {

  /** ncurses' `KEY_ENTER` (octal 0527). */
  const KeyEnter := 343
  /** ncurses' `KEY_BACKSPACE` (octal 0407). */
  const KeyBackspace := 263
  /** ASCII DEL, sent by many terminals for the backspace key. */
  const Delete := 127
  /** ASCII BS (Ctrl-H). */
  const CtrlH := 8

  predicate IsEnter(key: int) {
    key == '\n' as int || key == KeyEnter
  }

  predicate IsBackspace(key: int) {
    key == KeyBackspace || key == Delete || key == CtrlH
  }

  /** `isprint` in the "C" locale: the ASCII graphic characters and space. */
  predicate IsPrintable(key: int) {
    0x20 <= key <= 0x7E
  }

  /** The query after a key that is not Enter. */
  function Edit(input: string, key: int): (q: string)
    ensures |input| - 1 <= |q| <= |input| + 1
    ensures |q| <= |input| ==> q == input[..|q|]
    ensures |q| > |input| ==> q[..|input|] == input
  {
    if IsBackspace(key) then
      (if input != "" then input[..|input| - 1] else input)
    else if IsPrintable(key) then input + [key as char]
    else input
  }

  /** How a session ends: nothing to run, or the shell command line to run. */
  datatype Exit = NoExec | Exec(command: string)

  /** Enter: run the selected command if anything was typed, else nothing. */
  function OnEnter(input: string, command: string): (e: Exit)
    ensures e == NoExec <==> input == ""
    ensures e.Exec? ==> e.command == command
  {
    if input == "" then NoExec else Exec(command)
  }

  /** The query after a sequence of keys none of which is Enter. */
  function Replay(input: string, keys: seq<int>): (q: string)
    ensures |input| - |keys| <= |q| <= |input| + |keys|
  {
    if keys == [] then input else Edit(Replay(input, keys[..|keys| - 1]), keys[|keys| - 1])
  }

  /** One key changes the query by at most one character at its end:
      backspace drops the last one (nothing when the query is empty), a
      printable key adds exactly that character, any other key changes nothing. */
  lemma EditStep(input: string, key: int)
    ensures IsBackspace(key) ==>
      |Edit(input, key)| == (if input == "" then 0 else |input| - 1)
      && Edit(input, key) == input[..|Edit(input, key)|]
    ensures !IsBackspace(key) && IsPrintable(key) ==>
      |Edit(input, key)| == |input| + 1
      && Edit(input, key)[..|input|] == input && Edit(input, key)[|input|] as int == key
    ensures !IsBackspace(key) && !IsPrintable(key) ==> Edit(input, key) == input
  {
  }

  /** Hence the query length moves by at most one per key. */
  lemma EditLength(input: string, key: int)
    ensures |input| - 1 <= |Edit(input, key)| <= |input| + 1
  {
    EditStep(input, key);
  }

  /** Backspace undoes a printable character. */
  lemma EraseUndoesType(input: string, key: int, erase: int)
    requires IsPrintable(key) && IsBackspace(erase)
    ensures Edit(Edit(input, key), erase) == input
  {
    assert (input + [key as char])[..|input|] == input;
  }

  /** The key codes that type the characters of `t`. */
  function Codes(t: string): (keys: seq<int>)
    ensures |keys| == |t|
    ensures forall k :: 0 <= k < |t| ==> keys[k] == t[k] as int
  {
    seq(|t|, k requires 0 <= k < |t| => t[k] as int)
  }

  predicate PrintableText(t: string) {
    forall k :: 0 <= k < |t| ==> IsPrintable(t[k] as int)
  }

  /** Typing a printable text appends it to the query. */
  lemma {:induction false} TypingAppends(input: string, t: string)
    requires PrintableText(t)
    ensures Replay(input, Codes(t)) == input + t
    decreases |t|
  {
    if t != [] {
      var init, last := t[..|t| - 1], t[|t| - 1];
      assert Codes(t)[..|t| - 1] == Codes(init);
      TypingAppends(input, init);
      assert Edit(input + init, last as int) == input + init + [last];
      assert init + [last] == t;
    }
  }
}
