/** Spoken text (`src/text.rs`): a plain string, escaped when written. */
module TextElement {
  import opened Wrappers
  import opened Options
  import Errors
  import E = Elements
  import Xml
  import Escaping
  import opened Serialization

  /** `text(s)` and `From<T: ToString>`: the text element that speaks `s`. */
  function MakeText(s: string): E.Text
  {
    E.Text.Text(s)
  }

  /** `Text::serialize_xml`: hands the string to the writer's `text`. */
  method SerializeText(w: Xml.XmlWriter, t: E.Text, opts: SerializeOptions) returns (r: Result<(), Errors.Error>)
    modifies w
    ensures Xml.Outcome(r, w.Snapshot()) == Xml.Exec(old(w.Snapshot()), E.Serialize(E.Element.Text(t), opts))
  {
    ghost var before := w.Snapshot();
    r := w.Text(t.text);
    ExecSingle(before, Xml.Cmd.Text(t.text));
  }

  /** Text never fails: it is written escaped after the lead of its position,
      and unescaping what was written gives the text back. */
  lemma TextWritten(w: Xml.WriterState, s: string, opts: SerializeOptions)
    ensures Xml.Exec(w, E.Serialize(E.Element.Text(MakeText(s)), opts)) == Xml.Outcome(Ok(()), Xml.WriteChild(w, Escaping.Escape(s)))
    ensures var out := Xml.WriteChild(w, Escaping.Escape(s)).out;
      Escaping.Unescape(out[|w.out + Xml.Lead(w)|..]) == s
  {
    ExecSingle(w, Xml.Cmd.Text(s));
    var out := Xml.WriteChild(w, Escaping.Escape(s)).out;
    assert out[|w.out + Xml.Lead(w)|..] == Escaping.Escape(s);
    Escaping.UnescapeEscape(s);
  }

  /** The `text_escapes` example: `One & two` alone in a compact document
      under the default options is `One &amp; two`, with nothing before it. */
  lemma TextEscapesExample()
    ensures Xml.Exec(Xml.WriterState("", 0, DefaultOptions.pretty, Xml.DocumentStart), E.Serialize(E.Element.Text(MakeText("One & two")), DefaultOptions))
      == Xml.Outcome(Ok(()), Xml.WriterState("One &amp; two", 0, false, Xml.ElementClosed))
  {
    TextWritten(Xml.WriterState("", 0, false, Xml.DocumentStart), "One & two", DefaultOptions);
    Escaping.TextExample();
  }
}
