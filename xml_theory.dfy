/**
 * What the XML writer produces, stated independently of its state machine.
 *
 * `Rendered` is a plain recursive description of the document text: a start
 * tag with its attributes, then either "/>" (" />" in pretty mode) or ">",
 * each child on its own line one level deeper, and the end tag back at the
 * element's level.  `RenderElement` proves that the writer of
 * `src/xml/writer.rs` writes exactly that for every well-formed closure.
 */
module XmlTheory {
  import opened Wrappers
  import opened Errors
  import opened Xml
  import Escaping

  /** A closure that writes its attributes first, then children, with a
      `TextJoin` only right after a text child, and that never fails. */
  predicate WellFormed(c: Cmd)
    decreases c
  {
    match c
    case Text(_) => true
    case Raw(_) => true
    case Element(_, body) => WellFormedBody(body)
    case _ => false
  }

  predicate WellFormedBody(body: seq<Cmd>)
    decreases body, 1
  {
    if body != [] && body[0].Attr? then WellFormedBody(body[1..]) else WellFormedChildren(body, false)
  }

  predicate WellFormedChildren(cs: seq<Cmd>, afterText: bool)
    decreases cs, 0
  {
    cs == [] ||
    if cs[0].TextJoin? then afterText && WellFormedChildren(cs[1..], false)
    else WellFormed(cs[0]) && WellFormedChildren(cs[1..], cs[0].Text?)
  }

  function Max(a: nat, b: nat): nat { if a < b then b else a }

  /** Nesting depth of elements. */
  function Height(c: Cmd): nat
    decreases c
  {
    match c
    case Element(_, body) => 1 + HeightSeq(body)
    case _ => 0
  }

  function HeightSeq(cs: seq<Cmd>): nat
    decreases cs
  {
    if cs == [] then 0 else Max(Height(cs[0]), HeightSeq(cs[1..]))
  }

  /** The text of one node whose start sits at nesting level `depth`. */
  function Rendered(c: Cmd, pretty: bool, depth: nat): string
    decreases c, 0
  {
    match c
    case Text(s) => Escaping.Escape(s)
    case Raw(s) => s
    case Element(tag, body) => "<" + tag + RenderedBody(body, pretty, depth, tag)
    case _ => ""
  }

  /** Attributes, then "/>" for an element without children, else the
      children one level deeper and the end tag. */
  function RenderedBody(body: seq<Cmd>, pretty: bool, depth: nat, tag: string): string
    decreases body, 1
  {
    if body != [] && body[0].Attr? then AttrText(body[0].name, body[0].value) + RenderedBody(body[1..], pretty, depth, tag)
    else if body == [] then SelfClose(pretty)
    else ">" + RenderedChildren(body, pretty, depth + 1) + EndTag(pretty, depth, tag)
  }

  /** Each child on a line of its own; a `TextJoin` is one space in a compact document. */
  function RenderedChildren(cs: seq<Cmd>, pretty: bool, depth: nat): string
    decreases cs, 0
  {
    if cs == [] then "" else RenderedChild(cs[0], pretty, depth) + RenderedChildren(cs[1..], pretty, depth)
  }

  function RenderedChild(c: Cmd, pretty: bool, depth: nat): string
    decreases c, 1
  {
    if c.TextJoin? then (if pretty then "" else " ") else LineBreak(pretty, depth) + Rendered(c, pretty, depth)
  }

  /** The writer writes a well-formed node as `Rendered` says, after the lead
      its position calls for, and leaves the indent where it found it. */
  lemma {:induction false} RenderElement(w: WriterState, c: Cmd)
    requires WellFormed(c) && w.indent + Height(c) <= 255
    ensures ExecOne(w, c) == Outcome(Ok(()), WriteChild(w, Rendered(c, w.pretty, w.indent)))
    decreases c
  {
    match c
    case Text(_) =>
    case Raw(_) =>
    case Element(tag, body) =>
      var o := Open(w, tag);
      RenderBody(o, body, tag, w.indent);
  }

  lemma {:induction false} RenderBody(o: WriterState, body: seq<Cmd>, tag: string, depth: nat)
    requires o.state == ElementUnclosed && o.indent == depth + 1
    requires WellFormedBody(body) && depth + 1 + HeightSeq(body) <= 255
    ensures Exec(o, body).result == Ok(())
    ensures Close(Exec(o, body).after, tag) ==
      o.(out := o.out + RenderedBody(body, o.pretty, depth, tag), indent := depth, state := ElementClosed)
    decreases body, 2
  {
    if body != [] && body[0].Attr? {
      RenderAttr(o, body, tag, depth);
    } else if body != [] {
      RenderFirstChild(o, body, tag, depth);
    }
  }

  lemma {:induction false} RenderAttr(o: WriterState, body: seq<Cmd>, tag: string, depth: nat)
    requires o.state == ElementUnclosed && o.indent == depth + 1
    requires body != [] && body[0].Attr?
    requires WellFormedBody(body[1..]) && depth + 1 + HeightSeq(body[1..]) <= 255
    ensures Exec(o, body).result == Ok(())
    ensures Close(Exec(o, body).after, tag) ==
      o.(out := o.out + RenderedBody(body, o.pretty, depth, tag), indent := depth, state := ElementClosed)
    decreases body, 1
  {
    var text := AttrText(body[0].name, body[0].value);
    var o' := o.(out := o.out + text);
    assert Exec(o, body) == Exec(o', body[1..]) by {
      assert ExecOne(o, body[0]) == Outcome(Ok(()), o');
    }
    RenderBody(o', body[1..], tag, depth);
    assert RenderedBody(body, o.pretty, depth, tag) == text + RenderedBody(body[1..], o.pretty, depth, tag);
  }

  lemma Regroup(a: string, b: string, c: string, d: string, e: string)
    ensures a + b + c + d + e == a + (b + (c + d) + e)
  {
  }

  lemma CloseAfterChildren(w: WriterState, tag: string)
    requires w.state == ElementClosed && w.indent > 0
    ensures Close(w, tag) == w.(out := w.out + EndTag(w.pretty, w.indent - 1, tag), indent := w.indent - 1)
  {
  }

  lemma {:induction false} RenderFirstChild(o: WriterState, body: seq<Cmd>, tag: string, depth: nat)
    requires o.state == ElementUnclosed && o.indent == depth + 1
    requires body != [] && !body[0].Attr?
    requires WellFormedChildren(body, false) && depth + 1 + HeightSeq(body) <= 255
    ensures Exec(o, body).result == Ok(())
    ensures Close(Exec(o, body).after, tag) ==
      o.(out := o.out + RenderedBody(body, o.pretty, depth, tag), indent := depth, state := ElementClosed)
    decreases body, 1
  {
    var piece := RenderedChild(body[0], o.pretty, depth + 1);
    var o' := o.(out := o.out + ">" + piece, state := ElementClosed);
    assert ExecOne(o, body[0]) == Outcome(Ok(()), o') by {
      RenderElement(o, body[0]);
      Assoc(o.out, ">", LineBreak(o.pretty, depth + 1));
      Assoc(o.out + ">", LineBreak(o.pretty, depth + 1), Rendered(body[0], o.pretty, depth + 1));
    }
    var rest := RenderedChildren(body[1..], o.pretty, depth + 1);
    var inner := o'.(out := o'.out + rest);
    assert Exec(o, body) == Outcome(Ok(()), inner) by {
      RenderChildren(o', body[1..], body[0].Text?);
    }
    CloseAfterChildren(inner, tag);
    Regroup(o.out, ">", piece, rest, EndTag(o.pretty, depth, tag));
  }

  lemma {:induction false} RenderChildren(w: WriterState, cs: seq<Cmd>, afterText: bool)
    requires w.state == ElementClosed
    requires WellFormedChildren(cs, afterText) && w.indent + HeightSeq(cs) <= 255
    ensures Exec(w, cs) == Outcome(Ok(()), w.(out := w.out + RenderedChildren(cs, w.pretty, w.indent)))
    decreases cs, 0
  {
    if cs != [] {
      var c := cs[0];
      var piece := RenderedChild(c, w.pretty, w.indent);
      var w' := w.(out := w.out + piece);
      assert ExecOne(w, c) == Outcome(Ok(()), w') by {
        if !c.TextJoin? {
          RenderElement(w, c);
          Assoc(w.out, LineBreak(w.pretty, w.indent), Rendered(c, w.pretty, w.indent));
        }
      }
      RenderChildren(w', cs[1..], c.Text?);
      Assoc(w.out, piece, RenderedChildren(cs[1..], w.pretty, w.indent));
    }
  }

  /** A whole document: a fresh writer writes exactly `Rendered(c, pretty, 0)`. */
  lemma RenderDocument(c: Cmd, pretty: bool)
    requires WellFormed(c) && Height(c) <= 255
    ensures Exec(WriterState("", 0, pretty, DocumentStart), [c]) ==
      Outcome(Ok(()), WriterState(Rendered(c, pretty, 0), 0, pretty, ElementClosed))
  {
    RenderElement(WriterState("", 0, pretty, DocumentStart), c);
  }

  // ------------------------------------------------------------ sequencing

  /** Running two closures back to back is running their concatenation. */
  lemma {:induction false} ExecAppend(w: WriterState, a: seq<Cmd>, b: seq<Cmd>)
    ensures Exec(w, a + b) == (var r := Exec(w, a); if r.result.Err? then r else Exec(r.after, b))
    decreases a
  {
    if a == [] {
      assert a + b == b;
    } else {
      assert (a + b)[0] == a[0] && (a + b)[1..] == a[1..] + b;
      var first := ExecOne(w, a[0]);
      if first.result.Ok? {
        ExecAppend(first.after, a[1..], b);
      }
    }
  }

  // ------------------------------------------------------------ states

  predicate IsChild(c: Cmd) { c.Text? || c.Raw? || c.Element? }

  /** A successful child leaves the parent's start tag closed. */
  lemma ChildClosesElement(w: WriterState, c: Cmd)
    requires IsChild(c) && ExecOne(w, c).result.Ok?
    ensures ExecOne(w, c).after.state == ElementClosed
  {
  }

  /** Once children were written, every successful step keeps the element closed. */
  lemma StaysClosed(w: WriterState, c: Cmd)
    requires w.state == ElementClosed && ExecOne(w, c).result.Ok?
    ensures ExecOne(w, c).after.state == ElementClosed
  {
  }

  lemma {:induction false} AttrWhenClosedFails(w: WriterState, cs: seq<Cmd>, j: nat)
    requires w.state == ElementClosed && j < |cs| && cs[j].Attr?
    ensures Exec(w, cs).result.Err?
    decreases j
  {
    var first := ExecOne(w, cs[0]);
    if j > 0 && first.result.Ok? {
      StaysClosed(w, cs[0]);
      AttrWhenClosedFails(first.after, cs[1..], j - 1);
    }
  }

  /** An attribute written after a child of the same element makes the whole
      closure fail. */
  lemma AttrAfterChildFails(w: WriterState, cs: seq<Cmd>, i: nat, j: nat)
    requires i < j < |cs| && IsChild(cs[i]) && cs[j].Attr?
    ensures Exec(w, cs).result.Err?
  {
    assert cs == cs[..i] + cs[i..];
    ExecAppend(w, cs[..i], cs[i..]);
    var r := Exec(w, cs[..i]);
    if r.result.Ok? {
      var first := ExecOne(r.after, cs[i]);
      if first.result.Ok? {
        ChildClosesElement(r.after, cs[i]);
        assert cs[i..][1..][j - i - 1] == cs[j];
        AttrWhenClosedFails(first.after, cs[i..][1..], j - i - 1);
      }
    }
  }

  /** The error that attribute gets when nothing else failed first. */
  lemma AttrAfterChildError(w: WriterState, name: string, v: AttrValue)
    requires w.state == ElementClosed
    ensures ExecOne(w, Cmd.Attr(name, v)) == Outcome(Err(AttributesInChildContext), w)
  {
  }

  /** The writer never returns to `DocumentStart` once something was written. */
  lemma {:induction false} NoReturnToDocumentStart(w: WriterState, c: Cmd)
    requires w.state != DocumentStart || IsChild(c)
    ensures ExecOne(w, c).after.state != DocumentStart
    decreases c
  {
    match c
    case Element(tag, body) => NoReturnToDocumentStartSeq(Open(w, tag), body);
    case _ =>
  }

  lemma {:induction false} NoReturnToDocumentStartSeq(w: WriterState, cs: seq<Cmd>)
    requires w.state != DocumentStart
    ensures Exec(w, cs).after.state != DocumentStart
    decreases cs
  {
    if cs != [] {
      NoReturnToDocumentStart(w, cs[0]);
      if ExecOne(w, cs[0]).result.Ok? {
        NoReturnToDocumentStartSeq(ExecOne(w, cs[0]).after, cs[1..]);
      }
    }
  }

  predicate WritesNoChild(body: seq<Cmd>)
  {
    forall i :: 0 <= i < |body| ==> !IsChild(body[i])
  }

  /** After a successful closure the start tag is still pending exactly when
      the closure wrote no child. */
  lemma {:induction false} PendingIffNoChild(w: WriterState, cs: seq<Cmd>)
    requires w.state == ElementUnclosed && Exec(w, cs).result.Ok?
    ensures Exec(w, cs).after.state == ElementUnclosed <==> WritesNoChild(cs)
    decreases cs
  {
    if cs != [] {
      var first := ExecOne(w, cs[0]);
      if IsChild(cs[0]) {
        ChildClosesElement(w, cs[0]);
        StaysClosedSeq(first.after, cs[1..]);
      } else {
        assert first.after.state == ElementUnclosed;
        PendingIffNoChild(first.after, cs[1..]);
        assert WritesNoChild(cs) <==> WritesNoChild(cs[1..]) by {
          if WritesNoChild(cs[1..]) {
            forall i | 0 <= i < |cs| ensures !IsChild(cs[i]) {
              if i > 0 { assert cs[i] == cs[1..][i - 1]; }
            }
          }
        }
      }
    }
  }

  lemma {:induction false} StaysClosedSeq(w: WriterState, cs: seq<Cmd>)
    requires w.state == ElementClosed && Exec(w, cs).result.Ok?
    ensures Exec(w, cs).after.state == ElementClosed
    decreases cs
  {
    if cs != [] {
      StaysClosed(w, cs[0]);
      StaysClosedSeq(ExecOne(w, cs[0]).after, cs[1..]);
    }
  }

  /** `element` ends with "/>" (" />" when pretty) when its closure wrote no
      child, and with a line break and "</tag>" otherwise. */
  lemma ElementEnding(w: WriterState, tag: string, body: seq<Cmd>)
    requires ExecOne(w, Cmd.Element(tag, body)).result.Ok?
    ensures var inner := Exec(Open(w, tag), body).after;
      ExecOne(w, Cmd.Element(tag, body)).after.out ==
        inner.out + if WritesNoChild(body) then SelfClose(w.pretty) else EndTag(w.pretty, SaturatingDec(inner.indent), tag)
  {
    var inner := Exec(Open(w, tag), body);
    assert ExecOne(w, Cmd.Element(tag, body)).after == Close(inner.after, tag);
    assert inner.after.state != DocumentStart by {
      NoReturnToDocumentStartSeq(Open(w, tag), body);
    }
    assert inner.after.state == ElementUnclosed <==> WritesNoChild(body) by {
      PendingIffNoChild(Open(w, tag), body);
    }
    assert inner.after.pretty == w.pretty by {
      PrettyKept(Open(w, tag), body);
    }
  }

  lemma {:induction false} PrettyKept(w: WriterState, cs: seq<Cmd>)
    ensures Exec(w, cs).after.pretty == w.pretty
    decreases cs
  {
    if cs != [] {
      PrettyKeptOne(w, cs[0]);
      PrettyKept(ExecOne(w, cs[0]).after, cs[1..]);
    }
  }

  lemma {:induction false} PrettyKeptOne(w: WriterState, c: Cmd)
    ensures ExecOne(w, c).after.pretty == w.pretty
    decreases c
  {
    if c.Element? {
      PrettyKept(Open(w, c.tag), c.body);
    }
  }

  // ------------------------------------------------------------ indentation

  /** A successful `element` gives the indent back, provided the nesting never
      reached the 255 cap. */
  lemma {:induction false} IndentRestored(w: WriterState, c: Cmd)
    requires ExecOne(w, c).result.Ok? && w.indent + Height(c) <= 255
    ensures ExecOne(w, c).after.indent == w.indent
    decreases c
  {
    match c
    case Element(tag, body) => IndentRestoredSeq(Open(w, tag), body);
    case _ =>
  }

  lemma {:induction false} IndentRestoredSeq(w: WriterState, cs: seq<Cmd>)
    requires Exec(w, cs).result.Ok? && w.indent + HeightSeq(cs) <= 255
    ensures Exec(w, cs).after.indent == w.indent
    decreases cs
  {
    if cs != [] {
      IndentRestored(w, cs[0]);
      IndentRestoredSeq(ExecOne(w, cs[0]).after, cs[1..]);
    }
  }

  /** Past the cap the saturating counters no longer balance: three nested
      elements entered at indent 254 leave it at 252. */
  lemma SaturatedIndentDrifts()
    ensures var w := WriterState("", 254, true, ElementClosed);
      ExecOne(w, Cmd.Element("a", [Cmd.Element("b", [Cmd.Element("c", [])])])).after.indent == 252
  {
    var w := WriterState("", 254, true, ElementClosed);
    var c := Cmd.Element("c", []);
    var b := Cmd.Element("b", [c]);
    var wa := Open(w, "a");
    var wb := Open(wa, "b");
    var wc := Open(wb, "c");
    assert wc.indent == 255;
    assert ExecOne(wb, c).after.indent == 254;
    assert Exec(wb, [c]).after.indent == 254;
    assert ExecOne(wa, b).after.indent == 253;
    assert Exec(wa, [b]).after.indent == 253;
  }

  /** A failing closure returns its error at once: the indent stays one level
      deeper and the start tag stays pending. */
  lemma FailedElementKeepsIndent(w: WriterState, tag: string, e: Error)
    requires w.indent < 255
    ensures ExecOne(w, Cmd.Element(tag, [Cmd.Fail(e)])) ==
      Outcome(Err(e), w.(out := w.out + Lead(w) + "<" + tag, indent := w.indent + 1, state := ElementUnclosed))
  {
    var o := Open(w, tag);
    assert Exec(o, [Cmd.Fail(e)]) == ExecOne(o, Cmd.Fail(e)) == Outcome(Err(e), o);
  }

  // ------------------------------------------------------------ concrete text

  /** The line breaks of the first levels of a pretty document. */
  lemma PrettyBreaks()
    ensures LineBreak(true, 0) == "\n" && LineBreak(true, 1) == "\n\t"
    ensures LineBreak(true, 2) == "\n\t\t" && LineBreak(true, 3) == "\n\t\t\t"
  {
    assert Tabs(0) == "";
    assert Tabs(1) == "\t";
    assert Tabs(2) == "\t\t";
    assert Tabs(3) == "\t\t\t";
  }

  /** An attribute whose value needs no escaping is rendered as written. */
  lemma PlainAttr(name: string, v: string, rest: seq<Cmd>, pretty: bool, depth: nat, tag: string)
    requires forall i :: 0 <= i < |v| ==> !Escaping.IsMarkup(v[i])
    ensures RenderedBody([Cmd.Attr(name, Escaped(v))] + rest, pretty, depth, tag) ==
      " " + name + "=\"" + v + "\"" + RenderedBody(rest, pretty, depth, tag)
  {
    Escaping.EscapeIdentity(v);
    var b := [Cmd.Attr(name, Escaped(v))] + rest;
    assert b[0].Attr? && b[1..] == rest;
  }

  /** A trusted attribute value is rendered as written. */
  lemma TrustedAttr(name: string, v: string, rest: seq<Cmd>, pretty: bool, depth: nat, tag: string)
    ensures RenderedBody([Cmd.Attr(name, Trusted(v))] + rest, pretty, depth, tag) ==
      " " + name + "=\"" + v + "\"" + RenderedBody(rest, pretty, depth, tag)
  {
    var b := [Cmd.Attr(name, Trusted(v))] + rest;
    assert b[0].Attr? && b[1..] == rest;
  }

  /** A last child. */
  lemma LastChild(c: Cmd, pretty: bool, depth: nat)
    ensures RenderedChildren([c], pretty, depth) == RenderedChild(c, pretty, depth)
  {
    assert [c][1..] == [];
  }
}
