/** A named point in the document (`src/mark.rs`), written `<mark name=…/>`,
    or `<bookmark mark=…/>` for the Microsoft service. */
module MarkElement {
  import opened Wrappers
  import opened Options
  import Errors
  import E = Elements
  import Xml
  import opened Serialization

  class Mark {
    var name: string

    /** `Mark::new` and `mark()`. */
    constructor (name: string)
      ensures this.name == name
    {
      this.name := name;
    }

    method SetName(name: string)
      modifies this
      ensures this.name == name
    {
      this.name := name;
    }

    function Value(): E.Mark
      reads this
    {
      E.Mark.Mark(name)
    }

    /** `serialize_xml`: the element and its one attribute, chosen by flavor. */
    method SerializeXml(w: Xml.XmlWriter, opts: SerializeOptions) returns (r: Result<(), Errors.Error>)
      modifies w
      ensures Xml.Outcome(r, w.Snapshot()) == Xml.Exec(old(w.Snapshot()), E.SerializeMark(Value(), opts))
    {
      ghost var before := w.Snapshot();
      if opts.flavor == MicrosoftAzureCognitiveSpeechServices {
        r := w.Element("bookmark", [Xml.Cmd.Attr("mark", Xml.Escaped(name))]);
      } else {
        r := w.Element("mark", [Xml.Cmd.Attr("name", Xml.Escaped(name))]);
      }
      ExecSingle(before, E.SerializeMark(Value(), opts)[0]);
    }
  }

  lemma OneAttrText(name: string, v: Xml.AttrValue)
    ensures AttrsText([Xml.Cmd.Attr(name, v)]) == Xml.AttrText(name, v)
  {
    assert [Xml.Cmd.Attr(name, v)][1..] == [];
  }

  /** A mark never fails below the nesting limit: one self-closing element
      whose only attribute carries the escaped name; `bookmark`/`mark` for
      the Microsoft service, `mark`/`name` for every other flavor. */
  lemma MarkWritten(w: Xml.WriterState, m: E.Mark, opts: SerializeOptions)
    requires w.indent < 255
    ensures opts.flavor == MicrosoftAzureCognitiveSpeechServices ==>
      Xml.Exec(w, E.SerializeMark(m, opts)) ==
      Xml.Outcome(Ok(()), Xml.WriteChild(w, "<bookmark" + Xml.AttrText("mark", Xml.Escaped(m.name)) + Xml.SelfClose(w.pretty)))
    ensures opts.flavor != MicrosoftAzureCognitiveSpeechServices ==>
      Xml.Exec(w, E.SerializeMark(m, opts)) ==
      Xml.Outcome(Ok(()), Xml.WriteChild(w, "<mark" + Xml.AttrText("name", Xml.Escaped(m.name)) + Xml.SelfClose(w.pretty)))
  {
    if opts.flavor == MicrosoftAzureCognitiveSpeechServices {
      var a := Xml.Cmd.Attr("mark", Xml.Escaped(m.name));
      assert E.SerializeMark(m, opts) == [Xml.Cmd.Element("bookmark", [a])];
      OneAttrText("mark", Xml.Escaped(m.name));
      LeafOutput(w, "bookmark", [a]);
      assert "<" + "bookmark" == "<bookmark";
    } else {
      var a := Xml.Cmd.Attr("name", Xml.Escaped(m.name));
      assert E.SerializeMark(m, opts) == [Xml.Cmd.Element("mark", [a])];
      OneAttrText("name", Xml.Escaped(m.name));
      LeafOutput(w, "mark", [a]);
      assert "<" + "mark" == "<mark";
    }
  }
}
