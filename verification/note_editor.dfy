/**
 * The Tab key in the note editor's textarea
 * (handleContentKeyDown in src/renderer/src/components/NoteEditor.jsx):
 * the selection is replaced by one tab character and the cursor is put
 * right after it. The textarea's value is the editor's content state.
 */
module NoteEditor {

  /** The textarea: its text and its selection [selectionStart, selectionEnd). */
  datatype Textarea = Textarea(value: string, selectionStart: nat, selectionEnd: nat)

  /** The text the Tab key inserts. */
  const Indent: string := "\t"

  /** String.prototype.slice(from, to) for indices that are not negative. */
  function Slice(s: string, from: nat, to: nat): (r: string)
    ensures from <= to <= |s| ==> r == s[from..to]
    ensures |r| <= |s|
  {
    var lo := if from < |s| then from else |s|;
    var hi := if to < |s| then to else |s|;
    if lo < hi then s[lo..hi] else ""
  }

  /** handleContentKeyDown: Tab replaces the selection; every other key is left to the textarea. */
  function HandleContentKeyDown(key: string, t: Textarea): (r: Textarea)
    ensures key != "Tab" ==> r == t
    ensures key == "Tab" ==> r.selectionStart == r.selectionEnd == t.selectionStart + 1
  {
    if key == "Tab" then
      var start := t.selectionStart;
      var end := t.selectionEnd;
      var newVal := Slice(t.value, 0, start) + Indent + Slice(t.value, end, |t.value|);
      Textarea(newVal, start + |Indent|, start + |Indent|)
    else t
  }

  /** A selection that lies inside the text. */
  predicate InRange(t: Textarea)
  {
    t.selectionStart <= t.selectionEnd <= |t.value|
  }

  /** Tab over a selection inside the text is the splice content[..start] + "\t" + content[end..]. */
  lemma TabSplice(t: Textarea)
    requires InRange(t)
    ensures HandleContentKeyDown("Tab", t).value
            == t.value[..t.selectionStart] + "\t" + t.value[t.selectionEnd..]
  {
  }

  /** The text loses the selection and gains one character, a tab at the old start, before the cursor. */
  lemma TabShape(t: Textarea)
    requires InRange(t)
    ensures var r := HandleContentKeyDown("Tab", t);
            |r.value| == |t.value| - (t.selectionEnd - t.selectionStart) + 1
            && r.value[t.selectionStart] == '\t'
            && r.selectionStart == t.selectionStart + 1 <= |r.value|
            && r.value[r.selectionStart..] == t.value[t.selectionEnd..]
            && r.value[..t.selectionStart] == t.value[..t.selectionStart]
  {
    TabSplice(t);
    var r := HandleContentKeyDown("Tab", t);
    var s, e := t.selectionStart, t.selectionEnd;
    assert r.value == t.value[..s] + "\t" + t.value[e..];
    assert r.value[s + 1..] == t.value[e..];
  }

  /** With no selection Tab only inserts: deleting the tab again gives back the text. */
  lemma TabWithoutSelectionInserts(t: Textarea)
    requires InRange(t) && t.selectionStart == t.selectionEnd
    ensures var r := HandleContentKeyDown("Tab", t);
            r.value[..t.selectionStart] + r.value[t.selectionStart + 1..] == t.value
  {
    TabShape(t);
    var s := t.selectionStart;
    assert t.value == t.value[..s] + t.value[s..];
  }
}
