/**
 * The XML writer (`src/xml/writer.rs`): a three-state machine over an output
 * sink that writes start tags, attributes, text and end tags, choosing between
 * a self-closing tag and an explicit end tag, and indenting with tabs in pretty
 * mode.
 *
 * `element` takes a closure that writes the element's attributes and children;
 * here that closure is the command list `body`, interpreted by `Exec`.
 */
module Xml {
  import opened Wrappers
  import opened Errors
  import Escaping

  type u8 = n: int | 0 <= n < 256

  datatype XmlState = DocumentStart | ElementUnclosed | ElementClosed

  /** An attribute value: `Escaped` stands for the string types written through
      `escape`, `Trusted` for the value types whose display text is written as is. */
  datatype AttrValue = Escaped(s: string) | Trusted(s: string)

  function AttrValueText(v: AttrValue): string
  {
    match v
    case Escaped(s) => Escaping.Escape(s)
    case Trusted(s) => s
  }

  /** One step of an element's closure. `TextJoin` is the single space that
      `serialize_elements` writes straight to the sink between two adjacent
      text children of a compact document; `Fail` aborts with an error. */
  datatype Cmd =
    | Attr(name: string, value: AttrValue)
    | Text(text: string)
    | Raw(raw: string)
    | Element(tag: string, body: seq<Cmd>)
    | TextJoin
    | Fail(error: Error)

  /** The writer's fields at one point in time. */
  datatype WriterState = WriterState(out: string, indent: u8, pretty: bool, state: XmlState)

  /** What a call returned, and the writer after it. */
  datatype Outcome = Outcome(result: Result<(), Error>, after: WriterState)

  /** `saturating_add(1)` on the indentation level. */
  function SaturatingInc(n: u8): u8
  {
    if n == 255 then 255 else n + 1
  }

  /** `saturating_sub(1)` on the indentation level. */
  function SaturatingDec(n: u8): u8
  {
    if n == 0 then 0 else n - 1
  }

  /** Below the top level, leaving undoes entering, and above zero, entering
      undoes leaving; at the ends the counter sticks. */
  lemma SaturationInverse(n: u8)
    ensures n < 255 ==> SaturatingDec(SaturatingInc(n)) == n
    ensures n > 0 ==> SaturatingInc(SaturatingDec(n)) == n
    ensures SaturatingInc(255) == 255 && SaturatingDec(0) == 0
    ensures SaturatingDec(SaturatingInc(255)) == 254
  {
  }

  function Tabs(n: nat): (r: string)
    ensures |r| == n && forall i :: 0 <= i < n ==> r[i] == '\t'
  {
    seq(n, _ => '\t')
  }

  /** What `pretty_break` writes: a newline and one tab per level, or nothing. */
  function LineBreak(pretty: bool, depth: nat): string
  {
    if pretty then "\n" + Tabs(depth) else ""
  }

  /** ` name="value"`, as `attr` writes it. */
  function AttrText(name: string, v: AttrValue): string
  {
    " " + name + "=\"" + AttrValueText(v) + "\""
  }

  /** How an element without children ends. */
  function SelfClose(pretty: bool): string
  {
    if pretty then " />" else "/>"
  }

  /** How an element with children ends: the end tag on a line of its own. */
  function EndTag(pretty: bool, depth: nat, tag: string): string
  {
    LineBreak(pretty, depth) + CloseTag(tag)
  }

  function CloseTag(tag: string): string
  {
    "</" + tag + ">"
  }

  /** What is written before any child (element, text or raw): the '>' that
      ends a pending start tag, then a line break unless nothing was written yet. */
  function Lead(w: WriterState): string
  {
    (if w.state == ElementUnclosed then ">" else "")
    + (if w.state != DocumentStart then LineBreak(w.pretty, w.indent) else "")
  }

  /** A child's content written after its lead; the element is now closed. */
  function WriteChild(w: WriterState, content: string): WriterState
  {
    w.(out := w.out + Lead(w) + content, state := ElementClosed)
  }

  /** The start of `element`, up to running the closure. */
  function Open(w: WriterState, tag: string): WriterState
  {
    w.(out := w.out + Lead(w) + "<" + tag, state := ElementUnclosed, indent := SaturatingInc(w.indent))
  }

  /** The end of `element`, after the closure succeeded. */
  function Close(w: WriterState, tag: string): WriterState
  {
    var depth := SaturatingDec(w.indent);
    var tail := match w.state
      case ElementUnclosed => SelfClose(w.pretty)
      case ElementClosed => EndTag(w.pretty, depth, tag)
      case DocumentStart => "";
    w.(out := w.out + tail, indent := depth, state := ElementClosed)
  }

  function ExecOne(w: WriterState, c: Cmd): Outcome
    decreases c
  {
    match c
    case Attr(name, v) =>
      if w.state == ElementClosed then Outcome(Err(AttributesInChildContext), w)
      else Outcome(Ok(()), w.(out := w.out + AttrText(name, v)))
    case Text(s) => Outcome(Ok(()), WriteChild(w, Escaping.Escape(s)))
    case Raw(s) => Outcome(Ok(()), WriteChild(w, s))
    case TextJoin => Outcome(Ok(()), if w.pretty then w else w.(out := w.out + " "))
    case Fail(e) => Outcome(Err(e), w)
    case Element(tag, body) =>
      var inner := Exec(Open(w, tag), body);
      if inner.result.Err? then inner else Outcome(Ok(()), Close(inner.after, tag))
  }

  /** Runs the commands in order, stopping at the first error. */
  function Exec(w: WriterState, cmds: seq<Cmd>): Outcome
    decreases cmds
  {
    if cmds == [] then Outcome(Ok(()), w)
    else
      var first := ExecOne(w, cmds[0]);
      if first.result.Err? then first else Exec(first.after, cmds[1..])
  }

  lemma Assoc(a: string, b: string, c: string)
    ensures a + b + c == a + (b + c)
  {
  }

  lemma ExecStep(w: WriterState, cmds: seq<Cmd>, i: nat)
    requires i < |cmds|
    ensures Exec(w, cmds[i..]) ==
      var first := ExecOne(w, cmds[i]);
      if first.result.Err? then first else Exec(first.after, cmds[i + 1..])
  {
    assert cmds[i..][1..] == cmds[i + 1..];
  }

  class XmlWriter {
    var out: string
    var indent: u8
    var pretty: bool
    var state: XmlState

    function Snapshot(): WriterState
      reads this
    {
      WriterState(out, indent, pretty, state)
    }

    /** `XmlWriter::new`: nothing written, no indentation. */
    constructor (pretty: bool)
      ensures Snapshot() == WriterState("", 0, pretty, DocumentStart)
    {
      out := "";
      indent := 0;
      this.pretty := pretty;
      state := DocumentStart;
    }

    /** `pretty_break`: in pretty mode a newline and `indent` tabs. */
    method PrettyBreak()
      modifies this
      ensures Snapshot() == old(Snapshot()).(out := old(out) + LineBreak(pretty, indent))
    {
      if pretty {
        out := out + "\n";
        var i := 0;
        while i < indent
          invariant 0 <= i <= indent
          invariant out == old(out) + "\n" + Tabs(i)
          invariant indent == old(indent) && pretty == old(pretty) && state == old(state)
        {
          assert Tabs(i + 1) == Tabs(i) + "\t";
          out := out + "\t";
          i := i + 1;
        }
      }
    }

    /** The common start of `element`, `text` and `raw`. */
    method WriteLead()
      modifies this
      ensures Snapshot() == old(Snapshot()).(out := old(out) + Lead(old(Snapshot())))
    {
      if state == ElementUnclosed {
        out := out + ">";
      }
      if state != DocumentStart {
        PrettyBreak();
      }
    }

    /** `attr`: ` name="value"` on the pending start tag; refused once the
        element has children. */
    method Attr(name: string, value: AttrValue) returns (r: Result<(), Error>)
      modifies this
      ensures old(state) == ElementClosed ==> r == Err(AttributesInChildContext) && Snapshot() == old(Snapshot())
      ensures old(state) != ElementClosed ==>
        r == Ok(()) && Snapshot() == old(Snapshot()).(out := old(out) + AttrText(name, value))
    {
      if state == ElementClosed {
        return Err(AttributesInChildContext);
      }
      var text := value.s;
      if value.Escaped? {
        text := Escaping.EscapeToString(value.s);
      }
      out := out + (" " + name + "=\"" + text + "\"");
      r := Ok(());
    }

    /** `attr_opt`: `attr` when a value is present, nothing otherwise. */
    method AttrOpt(name: string, value: Option<AttrValue>) returns (r: Result<(), Error>)
      modifies this
      ensures value.None? ==> r == Ok(()) && Snapshot() == old(Snapshot())
      ensures value.Some? ==> Outcome(r, Snapshot()) == ExecOne(old(Snapshot()), Cmd.Attr(name, value.value))
    {
      r := Ok(());
      if value.Some? {
        r := Attr(name, value.value);
      }
    }

    /** `text`: ends a pending start tag, breaks the line, writes the escaped text. */
    method Text(s: string) returns (r: Result<(), Error>)
      modifies this
      ensures r == Ok(()) && Snapshot() == WriteChild(old(Snapshot()), Escaping.Escape(s))
    {
      WriteLead();
      var escaped := Escaping.EscapeToString(s);
      out := out + escaped;
      state := ElementClosed;
      r := Ok(());
    }

    /** `raw`: as `text`, but the content is written verbatim. */
    method Raw(s: string) returns (r: Result<(), Error>)
      modifies this
      ensures r == Ok(()) && Snapshot() == WriteChild(old(Snapshot()), s)
    {
      WriteLead();
      out := out + s;
      state := ElementClosed;
      r := Ok(());
    }

    /** `element`: writes the start tag, runs the closure one level deeper, then
        writes "/>" when the closure wrote no child and an end tag otherwise.
        An error from the closure is returned at once, indentation not restored. */
    method Element(tag: string, body: seq<Cmd>) returns (r: Result<(), Error>)
      modifies this
      decreases body, 1
      ensures Outcome(r, Snapshot()) == ExecOne(old(Snapshot()), Cmd.Element(tag, body))
    {
      WriteLead();
      out := out + "<" + tag;
      state := ElementUnclosed;
      indent := SaturatingInc(indent);
      ghost var started := Snapshot();
      assert started == Open(old(Snapshot()), tag);
      r := Run(body);
      assert Outcome(r, Snapshot()) == Exec(started, body);
      if r.Err? {
        return;
      }
      WriteEnd(tag);
      r := Ok(());
    }

    /** The end of `element` once the closure succeeded: one level up, then
        "/>" if no child was written, else the end tag on a line of its own. */
    method WriteEnd(tag: string)
      modifies this
      ensures Snapshot() == Close(old(Snapshot()), tag)
    {
      ghost var inner := Snapshot();
      indent := SaturatingDec(indent);
      match state {
        case ElementUnclosed =>
          out := out + SelfClose(pretty);
        case ElementClosed =>
          PrettyBreak();
          Assoc(inner.out, LineBreak(pretty, indent), CloseTag(tag));
          out := out + CloseTag(tag);
        case DocumentStart =>
      }
      state := ElementClosed;
    }

    /** One step of a closure. */
    method RunOne(c: Cmd) returns (r: Result<(), Error>)
      modifies this
      decreases c, 2
      ensures Outcome(r, Snapshot()) == ExecOne(old(Snapshot()), c)
    {
      match c
      case Attr(name, v) => r := Attr(name, v);
      case Text(s) => r := Text(s);
      case Raw(s) => r := Raw(s);
      case Element(tag, body) => r := Element(tag, body);
      case TextJoin =>
        if !pretty {
          out := out + " ";
        }
        r := Ok(());
      case Fail(e) => r := Err(e);
    }

    /** A closure: its steps in order, stopping at the first error. */
    method Run(cmds: seq<Cmd>) returns (r: Result<(), Error>)
      modifies this
      decreases cmds, 0
      ensures Outcome(r, Snapshot()) == Exec(old(Snapshot()), cmds)
    {
      var i := 0;
      while i < |cmds|
        invariant 0 <= i <= |cmds|
        invariant Exec(old(Snapshot()), cmds) == Exec(Snapshot(), cmds[i..])
      {
        ExecStep(Snapshot(), cmds, i);
        r := RunOne(cmds[i]);
        if r.Err? {
          return;
        }
        i := i + 1;
      }
      r := Ok(());
    }
  }
}
