/** A group of elements with no tag of its own (`src/group.rs`): its children
    are written one after another, as if they stood in its place. */
module GroupElement {
  import opened Wrappers
  import opened Options
  import Errors
  import E = Elements
  import Xml
  import opened XmlTheory
  import opened Serialization

  class Group {
    var children: seq<E.Element>

    /** `Group::new` and `group()`. */
    constructor (elements: seq<E.Element>)
      ensures children == elements
    {
      children := elements;
    }

    /** `push`, `+` and `+=`. */
    method Push(e: E.Element)
      modifies this
      ensures children == old(children) + [e]
    {
      children := children + [e];
    }

    method Extend(es: seq<E.Element>)
      modifies this
      ensures children == old(children) + es
    {
      children := children + es;
    }

    function Value(): E.Group
      reads this
    {
      E.Group.Group(children)
    }

    /** `serialize_xml`: each child in turn, stopping at the first error. */
    method SerializeXml(w: Xml.XmlWriter, opts: SerializeOptions) returns (r: Result<(), Errors.Error>)
      modifies w
      ensures Xml.Outcome(r, w.Snapshot()) == Xml.Exec(old(w.Snapshot()), E.SerializeGroup(Value(), opts))
    {
      r := SerializeGroupTo(w, Value(), opts);
    }
  }

  /** A group is transparent: a group of `a + b` writes what a group of `a`
      writes and then what a group of `b` writes, and stops where the first fails. */
  lemma GroupSplit(w: Xml.WriterState, a: seq<E.Element>, b: seq<E.Element>, opts: SerializeOptions)
    ensures Xml.Exec(w, E.SerializeGroup(E.Group.Group(a + b), opts)) ==
      var r := Xml.Exec(w, E.SerializeGroup(E.Group.Group(a), opts));
      if r.result.Err? then r else Xml.Exec(r.after, E.SerializeGroup(E.Group.Group(b), opts))
  {
    SerializeEachSplit(a, b, opts);
    ExecAppend(w, E.SerializeEach(a, opts), E.SerializeEach(b, opts));
  }

  /** An empty group writes nothing and succeeds. */
  lemma EmptyGroup(w: Xml.WriterState, opts: SerializeOptions)
    ensures Xml.Exec(w, E.SerializeGroup(E.Group.Group([]), opts)) == Xml.Outcome(Ok(()), w)
  {
  }

  /** After an earlier sibling, once the parent's start tag is closed, a group succeeds exactly
      when none of its children is refused, and then writes each child on a
      line of its own; it never writes the joining space that
      `serialize_elements` puts between two texts. */
  lemma GroupWritten(w: Xml.WriterState, g: E.Group, opts: SerializeOptions)
    requires w.state == Xml.ElementClosed && w.indent + HeightSeq(E.SerializeGroup(g, opts)) <= 255
    ensures Xml.Exec(w, E.SerializeGroup(g, opts)).result.Ok? <==> CleanSeq(g.children, opts)
    ensures CleanSeq(g.children, opts) ==>
      Xml.Exec(w, E.SerializeGroup(g, opts)) ==
      Xml.Outcome(Ok(()), w.(out := w.out + RenderedChildren(E.SerializeGroup(g, opts), w.pretty, w.indent)))
    ensures forall i :: 0 <= i < |E.SerializeGroup(g, opts)| ==> !E.SerializeGroup(g, opts)[i].TextJoin?
  {
    GroupWritesNoJoin(g.children, opts);
    if CleanSeq(g.children, opts) {
      SerializeEachWellFormed(g.children, opts, false);
      RenderChildren(w, E.SerializeGroup(g, opts), false);
    } else {
      RefusedHasFailEach(g.children, opts);
      FailAbortsSeq(w, E.SerializeGroup(g, opts));
    }
  }

  /** Two texts in a group are written without the space `serialize_elements`
      puts between them. */
  lemma GroupedTextsNotJoined(x: string, y: string, opts: SerializeOptions)
    ensures E.SerializeGroup(E.Group.Group([E.Element.Text(E.Text.Text(x)), E.Element.Text(E.Text.Text(y))]), opts) ==
      [Xml.Cmd.Text(x), Xml.Cmd.Text(y)]
    ensures E.SerializeElements([E.Element.Text(E.Text.Text(x)), E.Element.Text(E.Text.Text(y))], opts) ==
      [Xml.Cmd.Text(x), Xml.Cmd.TextJoin, Xml.Cmd.Text(y)]
  {
    var els := [E.Element.Text(E.Text.Text(x)), E.Element.Text(E.Text.Text(y))];
    assert els[1..] == [els[1]] && els[1..][1..] == [];
    assert E.SerializeEach(els[1..], opts) == [Xml.Cmd.Text(y)];
    assert E.Serialize(els[0], opts) == [Xml.Cmd.Text(x)];
    TwoTextsCmds(x, y, opts);
  }
}
