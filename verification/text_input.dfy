/** The free-text control's key handler: Alt+Enter or Meta+Enter inserts a
    line break at the caret, leaving plain Enter to the enclosing category. */
module TextInput {
  import opened ChatTypes

  /** The textarea's value after a key, and the caret position requested for
      the next frame, if any. */
  datatype TextEdit = TextEdit(value: string, caret: Option<int>)

  /** `value.slice(0, pos) + '\n' + value.slice(pos)`. The caret `pos` is the
      textarea's `selectionStart`, which always lies within its value. */
  function InsertNewline(value: string, pos: int): (r: string)
    requires 0 <= pos <= |value|
    ensures |r| == |value| + 1
    ensures r[..pos] == value[..pos] && r[pos] == '\n' && r[pos + 1..] == value[pos..]
  {
    value[..pos] + "\n" + value[pos..]
  }

  /** Removing the inserted line break gives back the original text. */
  lemma InsertNewlineUndo(value: string, pos: int)
    requires 0 <= pos <= |value|
    ensures var r := InsertNewline(value, pos); r[..pos] + r[pos + 1..] == value
  {
    var r := InsertNewline(value, pos);
    assert value == value[..pos] + value[pos..];
  }

  /** The key handler: with Alt or Meta, Enter splits the line at the caret
      and puts the caret just after the break; any other key, plain Enter
      included, leaves the value alone. */
  function KeyDown(value: string, pos: int, key: string, alt: bool, meta: bool): (r: TextEdit)
    requires 0 <= pos <= |value|
    ensures key == "Enter" && (alt || meta) ==>
              |r.value| == |value| + 1 && r.value[pos] == '\n' &&
              r.value[..pos] + r.value[pos + 1..] == value && r.caret == Some(pos + 1)
    ensures !(key == "Enter" && (alt || meta)) ==> r == TextEdit(value, None)
  {
    if key == "Enter" && (alt || meta) then
      InsertNewlineUndo(value, pos);
      TextEdit(InsertNewline(value, pos), Some(pos + 1))
    else TextEdit(value, None)
  }
}
