/** Stress on the enclosed text (`src/emphasis.rs`).  Its `serialize_xml`
    writes the level only: the children are kept but never written. */
module EmphasisElement {
  import opened Wrappers
  import opened Options
  import Errors
  import E = Elements
  import Xml
  import Escaping
  import opened Serialization
  import MarkElement

  /** `EmphasisLevel::default()`. */
  const DefaultLevel := E.EmphasisLevel.Moderate

  class Emphasis {
    var level: E.EmphasisLevel
    var children: seq<E.Element>

    /** `Emphasis::new` and `emphasis()`. */
    constructor (level: E.EmphasisLevel, elements: seq<E.Element>)
      ensures this.level == level && children == elements
    {
      this.level := level;
      children := elements;
    }

    method Push(e: E.Element)
      modifies this
      ensures children == old(children) + [e] && level == old(level)
    {
      children := children + [e];
    }

    method Extend(es: seq<E.Element>)
      modifies this
      ensures children == old(children) + es && level == old(level)
    {
      children := children + es;
    }

    function Value(): E.Emphasis
      reads this
    {
      E.Emphasis.Emphasis(level, children)
    }

    /** `serialize_xml`: an `emphasis` element with its `level` attribute. */
    method SerializeXml(w: Xml.XmlWriter, opts: SerializeOptions) returns (r: Result<(), Errors.Error>)
      modifies w
      ensures Xml.Outcome(r, w.Snapshot()) == Xml.Exec(old(w.Snapshot()), E.Serialize(E.Element.Emphasis(Value()), opts))
    {
      ghost var before := w.Snapshot();
      var body := [Xml.Cmd.Attr("level", Xml.Escaped(E.LevelText(level)))];
      r := w.Element("emphasis", body);
      ExecSingle(before, Xml.Cmd.Element("emphasis", body));
    }
  }

  /** The keyword a level is written as, read back. */
  function LevelFromText(s: string): Option<E.EmphasisLevel>
  {
    match s
    case "reduced" => Some(E.EmphasisLevel.Reduced)
    case "none" => Some(E.EmphasisLevel.None)
    case "moderate" => Some(E.EmphasisLevel.Moderate)
    case "strong" => Some(E.EmphasisLevel.Strong)
    case _ => Option.None
  }

  lemma LevelKeywords(l: E.EmphasisLevel)
    ensures LevelFromText(E.LevelText(l)) == Some(l)
    ensures Escaping.Escape(E.LevelText(l)) == E.LevelText(l)
  {
    Escaping.EscapeIdentity(E.LevelText(l));
  }

  /** An emphasis never fails below the nesting limit and is always a
      self-closing element with the level keyword: what it writes does not
      depend on its children. */
  lemma EmphasisWritten(w: Xml.WriterState, x: E.Emphasis, opts: SerializeOptions)
    requires w.indent < 255
    ensures Xml.Exec(w, E.Serialize(E.Element.Emphasis(x), opts)) ==
      Xml.Outcome(Ok(()), Xml.WriteChild(w, "<emphasis" + Xml.AttrText("level", Xml.Escaped(E.LevelText(x.level))) + Xml.SelfClose(w.pretty)))
  {
    var a := Xml.Cmd.Attr("level", Xml.Escaped(E.LevelText(x.level)));
    assert E.Serialize(E.Element.Emphasis(x), opts) == [Xml.Cmd.Element("emphasis", [a])];
    MarkElement.OneAttrText("level", a.value);
    LeafOutput(w, "emphasis", [a]);
    assert "<" + "emphasis" == "<emphasis";
  }
}
