/** An element of any tag (`CustomElement`, `src/element.rs`): a tag, name and
    value pairs written in insertion order, and children. */
module CustomElements {
  import opened Wrappers
  import opened Options
  import Errors
  import E = Elements
  import Xml
  import opened XmlTheory
  import opened Serialization

  /** `CustomElement::new`: no attributes, no children. */
  function NewCustom(tag: string): E.CustomElement
  {
    E.CustomElement.CustomElement(tag, [], [])
  }

  /** `with_attr`: one more attribute, after the others. */
  function WithAttr(c: E.CustomElement, name: string, value: string): E.CustomElement
  {
    c.(attrs := c.attrs + [(name, value)])
  }

  /** `with_child`: one more child, after the others. */
  function WithChild(c: E.CustomElement, e: E.Element): E.CustomElement
  {
    c.(children := c.children + [e])
  }

  /** `with_children`: more children, after the others. */
  function WithChildren(c: E.CustomElement, es: seq<E.Element>): E.CustomElement
  {
    c.(children := c.children + es)
  }

  /** The attributes as written: ` name="value"` for each pair, values escaped. */
  function PairsText(attrs: seq<(string, string)>): string
  {
    if attrs == [] then "" else Xml.AttrText(attrs[0].0, Xml.Escaped(attrs[0].1)) + PairsText(attrs[1..])
  }

  lemma {:induction false} PairAttrsText(attrs: seq<(string, string)>)
    ensures AttrsText(E.PairAttrs(attrs)) == PairsText(attrs)
    decreases attrs
  {
    if attrs != [] {
      var head := [Xml.Cmd.Attr(attrs[0].0, Xml.Escaped(attrs[0].1))];
      assert E.PairAttrs(attrs) == head + E.PairAttrs(attrs[1..]);
      AttrsTextAppend(head, E.PairAttrs(attrs[1..]));
      assert head[1..] == [];
      PairAttrsText(attrs[1..]);
    }
  }

  /** `with_attr` puts its attribute after every attribute added before it. */
  lemma {:induction false} WithAttrWrittenLast(c: E.CustomElement, name: string, value: string)
    ensures PairsText(WithAttr(c, name, value).attrs) == PairsText(c.attrs) + Xml.AttrText(name, Xml.Escaped(value))
  {
    PairsAppend(c.attrs, [(name, value)]);
    assert [(name, value)][1..] == [];
  }

  lemma {:induction false} PairsAppend(a: seq<(string, string)>, b: seq<(string, string)>)
    ensures PairsText(a + b) == PairsText(a) + PairsText(b)
    decreases a
  {
    if a == [] {
      assert a + b == b;
    } else {
      assert (a + b)[0] == a[0] && (a + b)[1..] == a[1..] + b;
      PairsAppend(a[1..], b);
      Xml.Assoc(Xml.AttrText(a[0].0, Xml.Escaped(a[0].1)), PairsText(a[1..]), PairsText(b));
    }
  }

  /** `with_children` and `with_child` add to the end: the new children are
      serialized after the old ones, with a joining space only when a text
      meets a text. */
  lemma WithChildrenWrittenLast(c: E.CustomElement, es: seq<E.Element>, opts: SerializeOptions)
    ensures E.SerializeElements(WithChildren(c, es).children, opts) ==
      E.SerializeElements(c.children, opts) + Bridge(c.children, es) + E.SerializeElements(es, opts)
  {
    SerializeElementsSplit(c.children, es, opts);
  }

  /** `CustomElement::serialize_xml`. */
  method SerializeCustom(w: Xml.XmlWriter, c: E.CustomElement, opts: SerializeOptions) returns (r: Result<(), Errors.Error>)
    modifies w
    ensures Xml.Outcome(r, w.Snapshot()) == Xml.Exec(old(w.Snapshot()), E.SerializeCustom(c, opts))
  {
    ghost var before := w.Snapshot();
    var body := E.PairAttrs(c.attrs) + E.SerializeElements(c.children, opts);
    r := w.Element(c.tag, body);
    ExecSingle(before, Xml.Cmd.Element(c.tag, body));
  }

  /** A custom element succeeds exactly when none of its children is refused;
      it then writes its tag, its attributes in order, and its children. */
  lemma CustomWritten(w: Xml.WriterState, c: E.CustomElement, opts: SerializeOptions)
    requires w.indent + 1 + HeightSeq(E.SerializeElements(c.children, opts)) <= 255
    ensures var o := Xml.Exec(w, E.SerializeCustom(c, opts));
      (o.result.Ok? <==> CleanSeq(c.children, opts)) &&
      (CleanSeq(c.children, opts) ==> o.after == Xml.WriteChild(w,
        "<" + c.tag + PairsText(c.attrs) + ChildrenPart(E.SerializeElements(c.children, opts), w.pretty, w.indent, c.tag)))
  {
    assert E.Serialize(E.Element.Custom(c), opts) == E.SerializeCustom(c, opts);
    VoiceAttrsAreAttrs(E.VoiceConfig(Option.None, Option.None, Option.None, Option.None, Option.None), c.attrs);
    if CleanSeq(c.children, opts) {
      SerializeElementsWellFormed(c.children, opts, false);
    }
    TaggedOutput(w, E.Element.Custom(c), opts, c.tag, E.PairAttrs(c.attrs), E.SerializeElements(c.children, opts));
    PairAttrsText(c.attrs);
  }

  /** A new custom element with attributes only is written as one
      self-closing tag. */
  lemma AttributesOnlySelfClose(w: Xml.WriterState, tag: string, name: string, value: string, opts: SerializeOptions)
    requires w.indent < 255
    ensures Xml.Exec(w, E.SerializeCustom(WithAttr(NewCustom(tag), name, value), opts)) ==
      Xml.Outcome(Ok(()), Xml.WriteChild(w, "<" + tag + Xml.AttrText(name, Xml.Escaped(value)) + Xml.SelfClose(w.pretty)))
  {
    var c := WithAttr(NewCustom(tag), name, value);
    assert c.attrs == [(name, value)] && c.children == [];
    CustomWritten(w, c, opts);
    WithAttrWrittenLast(NewCustom(tag), name, value);
  }
}
