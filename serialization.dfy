/**
 * `serialize_elements` (`src/util.rs`) run against the writer, and what the
 * serialization of an element tree produces: the rendered text when no
 * element is refused, an error otherwise.
 */
module Serialization {
  import opened Wrappers
  import opened Errors
  import opened Options
  import opened Elements
  import Xml
  import Escaping
  import opened XmlTheory

  type Cmd = Xml.Cmd

  // ---------------------------------------------------------------- refusal

  /** No element that is serialized refuses the flavor. (The children of an
      emphasis are never written, so they are not looked at.) */
  predicate Clean(e: Element, opts: SerializeOptions)
    decreases e
  {
    match e
    case Audio(a) => CleanSeq(a.alternate, opts)
    case Voice(v) => CleanSeq(v.children, opts)
    case FlavorMSTTS(Express(x)) => !ExpressRefused(opts) && CleanSeq(x.children, opts)
    case Custom(c) => CleanSeq(c.children, opts)
    case Prosody(p) => CleanSeq(p.children, opts)
    case Lang(l) => CleanSeq(l.children, opts)
    case Group(g) => CleanSeq(g.children, opts)
    case _ => true
  }

  predicate CleanSeq(els: seq<Element>, opts: SerializeOptions)
    decreases els
  {
    els == [] || (Clean(els[0], opts) && CleanSeq(els[1..], opts))
  }

  /** A closure that reaches a `Fail` if it gets that far. */
  predicate HasFail(c: Cmd)
    decreases c
  {
    match c
    case Fail(_) => true
    case Element(_, body) => HasFailSeq(body)
    case _ => false
  }

  predicate HasFailSeq(cs: seq<Cmd>)
    decreases cs
  {
    cs != [] && (HasFail(cs[0]) || HasFailSeq(cs[1..]))
  }

  lemma {:induction false} HasFailAppend(a: seq<Cmd>, b: seq<Cmd>)
    requires HasFailSeq(a) || HasFailSeq(b)
    ensures HasFailSeq(a + b)
    decreases a
  {
    if a == [] {
      assert a + b == b;
    } else {
      assert (a + b)[0] == a[0] && (a + b)[1..] == a[1..] + b;
      if !HasFail(a[0]) {
        HasFailAppend(a[1..], b);
      }
    }
  }

  /** A closure that reaches a `Fail` fails, whatever state it starts in:
      an error stops the writer and is handed up through every element. */
  lemma {:induction false} FailAborts(w: Xml.WriterState, c: Cmd)
    requires HasFail(c)
    ensures Xml.ExecOne(w, c).result.Err?
    decreases c, 1
  {
    if c.Element? {
      FailAbortsSeq(Xml.Open(w, c.tag), c.body);
    }
  }

  lemma {:induction false} FailAbortsSeq(w: Xml.WriterState, cs: seq<Cmd>)
    requires HasFailSeq(cs)
    ensures Xml.Exec(w, cs).result.Err?
    decreases cs, 0
  {
    var first := Xml.ExecOne(w, cs[0]);
    if first.result.Ok? {
      if HasFail(cs[0]) {
        FailAborts(w, cs[0]);
      } else {
        FailAbortsSeq(first.after, cs[1..]);
      }
    }
  }

  lemma {:induction false} RefusedHasFail(e: Element, opts: SerializeOptions)
    requires !Clean(e, opts)
    ensures HasFailSeq(Serialize(e, opts))
    decreases e, 1
  {
    match e
    case Audio(a) =>
      RefusedHasFailSeq(a.alternate, opts);
      HasFailAppend(AudioAttrs(a) + DescChild(a.desc), SerializeElements(a.alternate, opts));
    case Voice(v) =>
      RefusedHasFailSeq(v.children, opts);
      HasFailAppend(ConfigAttrs(v.config) + PairAttrs(v.attrs), SerializeElements(v.children, opts));
    case FlavorMSTTS(Express(x)) =>
      assert Serialize(e, opts) == SerializeExpress(x, opts);
      if !ExpressRefused(opts) {
        RefusedHasFailSeq(x.children, opts);
        HasFailAppend([Xml.Cmd.Attr("style", Xml.Escaped(x.expression.style)), Xml.Cmd.Attr("styledegree", Xml.Trusted(Units.Show(x.expression.degree)))],
          SerializeElements(x.children, opts));
      }
    case Custom(c) =>
      RefusedHasFailSeq(c.children, opts);
      HasFailAppend(PairAttrs(c.attrs), SerializeElements(c.children, opts));
    case Prosody(p) =>
      RefusedHasFailSeq(p.children, opts);
      HasFailAppend(ProsodyAttrs(p.control), SerializeElements(p.children, opts));
    case Lang(l) =>
      RefusedHasFailSeq(l.children, opts);
      HasFailAppend(LangAttrs(l), SerializeElements(l.children, opts));
    case Group(g) =>
      RefusedHasFailEach(g.children, opts);
  }

  lemma {:induction false} RefusedHasFailSeq(els: seq<Element>, opts: SerializeOptions)
    requires !CleanSeq(els, opts)
    ensures HasFailSeq(SerializeElements(els, opts))
    decreases els, 0
  {
    if Clean(els[0], opts) {
      RefusedHasFailSeq(els[1..], opts);
      HasFailAppend(Serialize(els[0], opts) + Joiner(els, 0), SerializeElements(els[1..], opts));
    } else {
      RefusedHasFail(els[0], opts);
      HasFailAppend(Serialize(els[0], opts), Joiner(els, 0));
      HasFailAppend(Serialize(els[0], opts) + Joiner(els, 0), SerializeElements(els[1..], opts));
    }
  }

  lemma {:induction false} RefusedHasFailEach(els: seq<Element>, opts: SerializeOptions)
    requires !CleanSeq(els, opts)
    ensures HasFailSeq(SerializeEach(els, opts))
    decreases els, 0
  {
    if Clean(els[0], opts) {
      RefusedHasFailEach(els[1..], opts);
    } else {
      RefusedHasFail(els[0], opts);
    }
    HasFailAppend(Serialize(els[0], opts), SerializeEach(els[1..], opts));
  }

  // ---------------------------------------------------------------- well-formedness

  predicate AllAttrs(cs: seq<Cmd>)
  {
    forall i :: 0 <= i < |cs| ==> cs[i].Attr?
  }

  /** Whether the last closure of `a` is a text (`t` when `a` is empty). */
  function AfterText(a: seq<Cmd>, t: bool): bool
  {
    if a == [] then t else a[|a| - 1].Text?
  }

  lemma {:induction false} ChildrenAppend(a: seq<Cmd>, b: seq<Cmd>, t: bool)
    requires WellFormedChildren(a, t) && WellFormedChildren(b, AfterText(a, t))
    ensures WellFormedChildren(a + b, t)
    decreases a
  {
    if a == [] {
      assert a + b == b;
    } else {
      assert (a + b)[0] == a[0] && (a + b)[1..] == a[1..] + b;
      ChildrenAppend(a[1..], b, a[0].Text?);
    }
  }

  lemma {:induction false} BodyWellFormed(attrs: seq<Cmd>, cs: seq<Cmd>)
    requires AllAttrs(attrs) && WellFormedChildren(cs, false)
    ensures WellFormedBody(attrs + cs)
    decreases attrs
  {
    if attrs == [] {
      assert attrs + cs == cs;
    } else {
      assert (attrs + cs)[0] == attrs[0] && (attrs + cs)[1..] == attrs[1..] + cs;
      BodyWellFormed(attrs[1..], cs);
    }
  }

  lemma AllAttrsAppend(a: seq<Cmd>, b: seq<Cmd>)
    requires AllAttrs(a) && AllAttrs(b)
    ensures AllAttrs(a + b)
  {
    forall i | 0 <= i < |a + b| ensures (a + b)[i].Attr? {
      if i >= |a| {
        assert (a + b)[i] == b[i - |a|];
      }
    }
  }

  lemma AudioAttrsAreAttrs(a: Audio)
    ensures AllAttrs(AudioAttrs(a))
  {
    var s := [Xml.Cmd.Attr("src", Xml.Escaped(a.src))];
    AllAttrsAppend(s, OptAttr("clipBegin", TimeOpt(a.clipBegin)));
    AllAttrsAppend(s + OptAttr("clipBegin", TimeOpt(a.clipBegin)), OptAttr("clipEnd", TimeOpt(a.clipEnd)));
    var s3 := s + OptAttr("clipBegin", TimeOpt(a.clipBegin)) + OptAttr("clipEnd", TimeOpt(a.clipEnd));
    AllAttrsAppend(s3, RepeatAttr(a.repeat));
    var sl := OptAttr("soundLevel", if a.soundLevel.Some? then Some(Xml.Trusted(Units.DecibelsText(a.soundLevel.value))) else Option.None);
    AllAttrsAppend(s3 + RepeatAttr(a.repeat), sl);
    var sp := OptAttr("speed", if a.speed.Some? then Some(Xml.Trusted(Units.SpeedText(a.speed.value))) else Option.None);
    AllAttrsAppend(s3 + RepeatAttr(a.repeat) + sl, sp);
  }

  lemma VoiceAttrsAreAttrs(c: VoiceConfig, attrs: seq<(string, string)>)
    ensures AllAttrs(ConfigAttrs(c) + PairAttrs(attrs)) && AllAttrs(PairAttrs(attrs))
  {

    var g := OptAttr("gender", if c.gender.Some? then Some(Xml.Trusted(GenderText(c.gender.value))) else Option.None);
    var ag := OptAttr("age", if c.age.Some? then Some(Xml.Trusted(Units.NatToString(c.age.value))) else Option.None);
    var n := OptAttr("name", if c.names.Some? then Some(Xml.Escaped(Join(c.names.value, " "))) else Option.None);
    var v := OptAttr("variant", EscapedOpt(c.variant));
    var lg := OptAttr("language", if c.languages.Some? then Some(Xml.Escaped(Join(c.languages.value, " "))) else Option.None);
    AllAttrsAppend(g, ag);
    AllAttrsAppend(g + ag, n);
    AllAttrsAppend(g + ag + n, v);
    AllAttrsAppend(g + ag + n + v, lg);
    AllAttrsAppend(ConfigAttrs(c), PairAttrs(attrs));
  }

  lemma ProsodyAttrsAreAttrs(p: ProsodyControl)
    ensures AllAttrs(ProsodyAttrs(p))
  {

    var pi := OptAttr("pitch", if p.pitch.Some? then Some(Xml.Trusted(PitchText(p.pitch.value))) else Option.None);
    var ra := OptAttr("range", if p.range.Some? then Some(Xml.Trusted(PitchText(p.range.value))) else Option.None);
    var rt := OptAttr("rate", if p.rate.Some? then Some(Xml.Trusted(RateText(p.rate.value))) else Option.None);
    var du := OptAttr("duration", TimeOpt(p.duration));
    var vo := OptAttr("volume", if p.volume.Some? then Some(Xml.Trusted(VolumeText(p.volume.value))) else Option.None);
    AllAttrsAppend(pi, ra);
    AllAttrsAppend(pi + ra, rt);
    AllAttrsAppend(pi + ra + rt, du);
    AllAttrsAppend(pi + ra + rt + du, vo);
  }

  lemma LangAttrsAreAttrs(l: Lang)
    ensures AllAttrs(LangAttrs(l))
  {

    var f := OptAttr("onlangfailure", if l.failureBehavior.Some? then Some(Xml.Escaped(LangFailureText(l.failureBehavior.value))) else Option.None);
    AllAttrsAppend([Xml.Cmd.Attr("xml:lang", Xml.Escaped(l.language))], f);
  }

  lemma SingleChild(c: Cmd, t: bool)
    requires WellFormed(c)
    ensures WellFormedChildren([c], t)
  {
    assert [c][1..] == [];
  }

  /** An element whose attributes come first and whose children are well formed is a well-formed child. */
  lemma ElementWellFormed(tag: string, attrs: seq<Cmd>, cs: seq<Cmd>, t: bool)
    requires AllAttrs(attrs) && WellFormedChildren(cs, false)
    ensures WellFormedChildren([Xml.Cmd.Element(tag, attrs + cs)], t)
  {
    BodyWellFormed(attrs, cs);
    SingleChild(Xml.Cmd.Element(tag, attrs + cs), t);
  }

  lemma LeafWellFormed(tag: string, attrs: seq<Cmd>, t: bool)
    requires AllAttrs(attrs)
    ensures WellFormedChildren([Xml.Cmd.Element(tag, attrs)], t)
  {
    ElementWellFormed(tag, attrs, [], t);
    assert attrs + [] == attrs;
  }

  lemma {:induction false} SerializeWellFormed(e: Element, opts: SerializeOptions, t: bool)
    requires Clean(e, opts)
    ensures WellFormedChildren(Serialize(e, opts), t)
    decreases e, 1
  {
    match e
    case Text(x) =>
      SingleChild(Xml.Cmd.Text(x.text), t);
    case Meta(m) =>
      SingleChild(Xml.Cmd.Raw(m.raw), t);
    case Break(b) =>
      LeafWellFormed("break", [BreakAttr(b)], t);
    case Emphasis(x) =>
      LeafWellFormed("emphasis", [Xml.Cmd.Attr("level", Xml.Escaped(LevelText(x.level)))], t);
    case Mark(m) =>
      if opts.flavor == MicrosoftAzureCognitiveSpeechServices {
        LeafWellFormed("bookmark", [Xml.Cmd.Attr("mark", Xml.Escaped(m.name))], t);
      } else {
        LeafWellFormed("mark", [Xml.Cmd.Attr("name", Xml.Escaped(m.name))], t);
      }
    case Audio(a) =>
      assert Serialize(e, opts) == SerializeAudio(a, opts);
      AudioWellFormed(a, opts, t);
    case Voice(v) =>
      SerializeElementsWellFormed(v.children, opts, false);
      VoiceAttrsAreAttrs(v.config, v.attrs);
      ElementWellFormed("voice", ConfigAttrs(v.config) + PairAttrs(v.attrs), SerializeElements(v.children, opts), t);
    case FlavorMSTTS(Express(x)) =>
      assert Serialize(e, opts) == SerializeExpress(x, opts);
      ExpressWellFormed(x, opts, t);
    case Custom(c) =>
      SerializeElementsWellFormed(c.children, opts, false);
      VoiceAttrsAreAttrs(VoiceConfig(Option.None, Option.None, Option.None, Option.None, Option.None), c.attrs);
      ElementWellFormed(c.tag, PairAttrs(c.attrs), SerializeElements(c.children, opts), t);
    case Prosody(p) =>
      SerializeElementsWellFormed(p.children, opts, false);
      ProsodyAttrsAreAttrs(p.control);
      ElementWellFormed("prosody", ProsodyAttrs(p.control), SerializeElements(p.children, opts), t);
    case Lang(l) =>
      SerializeElementsWellFormed(l.children, opts, false);
      LangAttrsAreAttrs(l);
      ElementWellFormed("lang", LangAttrs(l), SerializeElements(l.children, opts), t);
    case Group(g) =>
      SerializeEachWellFormed(g.children, opts, t);
  }

  lemma {:induction false} AudioWellFormed(a: Audio, opts: SerializeOptions, t: bool)
    requires CleanSeq(a.alternate, opts)
    ensures WellFormedChildren(SerializeAudio(a, opts), t)
    decreases a, 1
  {
    SerializeElementsWellFormed(a.alternate, opts, false);
    var desc := DescChild(a.desc);
    DescChildWellFormed(a.desc);
    ChildrenAppend(desc, SerializeElements(a.alternate, opts), false);
    AudioAttrsAreAttrs(a);
    ElementWellFormed("audio", AudioAttrs(a), desc + SerializeElements(a.alternate, opts), t);
    assert AudioAttrs(a) + (desc + SerializeElements(a.alternate, opts)) == AudioAttrs(a) + desc + SerializeElements(a.alternate, opts);
  }

  lemma DescChildWellFormed(d: Option<string>)
    ensures WellFormedChildren(DescChild(d), false)
  {
    if d.Some? {
      SingleChild(Xml.Cmd.Text(d.value), false);
      ElementWellFormed("desc", [], [Xml.Cmd.Text(d.value)], false);
      assert [] + [Xml.Cmd.Text(d.value)] == [Xml.Cmd.Text(d.value)];
    }
  }

  lemma {:induction false} ExpressWellFormed(x: Express, opts: SerializeOptions, t: bool)
    requires !ExpressRefused(opts) && CleanSeq(x.children, opts)
    ensures WellFormedChildren(SerializeExpress(x, opts), t)
    decreases x, 1
  {
    SerializeElementsWellFormed(x.children, opts, false);
    ElementWellFormed("mstts:express-as", [Xml.Cmd.Attr("style", Xml.Escaped(x.expression.style)), Xml.Cmd.Attr("styledegree", Xml.Trusted(Units.Show(x.expression.degree)))],
      SerializeElements(x.children, opts), t);
  }

  /** The children written by `serialize_elements` are well formed: the
      joining space only ever follows a text. */
  lemma {:induction false} SerializeElementsWellFormed(els: seq<Element>, opts: SerializeOptions, t: bool)
    requires CleanSeq(els, opts)
    ensures WellFormedChildren(SerializeElements(els, opts), t)
    decreases els, 0
  {
    if els != [] {
      var first := Serialize(els[0], opts);
      SerializeWellFormed(els[0], opts, t);
      ChildrenAppend(first, Joiner(els, 0), t);
      SerializeElementsWellFormed(els[1..], opts, AfterText(first + Joiner(els, 0), t));
      ChildrenAppend(first + Joiner(els, 0), SerializeElements(els[1..], opts), t);
    }
  }

  lemma {:induction false} SerializeEachWellFormed(els: seq<Element>, opts: SerializeOptions, t: bool)
    requires CleanSeq(els, opts)
    ensures WellFormedChildren(SerializeEach(els, opts), t)
    decreases els, 0
  {
    if els != [] {
      var first := Serialize(els[0], opts);
      SerializeWellFormed(els[0], opts, t);
      SerializeEachWellFormed(els[1..], opts, AfterText(first, t));
      ChildrenAppend(first, SerializeEach(els[1..], opts), t);
    }
  }

  // ---------------------------------------------------------------- results

  /** Children written into an element whose start tag is already closed:
      the serialization succeeds exactly when nothing in it is refused, and then
      writes the rendered children and nothing else (within 255 levels of nesting). */
  lemma SerializeChildren(w: Xml.WriterState, els: seq<Element>, opts: SerializeOptions)
    requires w.state == Xml.ElementClosed
    requires w.indent + HeightSeq(SerializeElements(els, opts)) <= 255
    ensures Xml.Exec(w, SerializeElements(els, opts)).result.Ok? <==> CleanSeq(els, opts)
    ensures CleanSeq(els, opts) ==>
      Xml.Exec(w, SerializeElements(els, opts)) ==
      Xml.Outcome(Ok(()), w.(out := w.out + RenderedChildren(SerializeElements(els, opts), w.pretty, w.indent)))
  {
    if CleanSeq(els, opts) {
      SerializeElementsWellFormed(els, opts, false);
      RenderChildren(w, SerializeElements(els, opts), false);
    } else {
      RefusedHasFailSeq(els, opts);
      FailAbortsSeq(w, SerializeElements(els, opts));
    }
  }

  /** An element whose attributes are followed by `serialize_elements` of its
      children: written as rendered when nothing below it is refused, an error otherwise. */
  lemma ElementWithChildren(w: Xml.WriterState, tag: string, attrs: seq<Cmd>, els: seq<Element>, opts: SerializeOptions)
    requires AllAttrs(attrs)
    requires w.indent + Height(Xml.Cmd.Element(tag, attrs + SerializeElements(els, opts))) <= 255
    ensures var c := Xml.Cmd.Element(tag, attrs + SerializeElements(els, opts));
      (Xml.ExecOne(w, c).result.Ok? <==> CleanSeq(els, opts)) &&
      (CleanSeq(els, opts) ==> Xml.ExecOne(w, c) == Xml.Outcome(Ok(()), Xml.WriteChild(w, Rendered(c, w.pretty, w.indent))))
  {
    var c := Xml.Cmd.Element(tag, attrs + SerializeElements(els, opts));
    if CleanSeq(els, opts) {
      SerializeElementsWellFormed(els, opts, false);
      BodyWellFormed(attrs, SerializeElements(els, opts));
      RenderElement(w, c);
    } else {
      RefusedHasFailSeq(els, opts);
      HasFailAppend(attrs, SerializeElements(els, opts));
      FailAborts(w, c);
    }
  }

  /** The space between two neighbouring texts: present exactly when the last
      element before the split and the first after it are both text. */
  function Bridge(a: seq<Element>, b: seq<Element>): seq<Cmd>
  {
    if a != [] && b != [] && a[|a| - 1].Text? && b[0].Text? then [Xml.Cmd.TextJoin] else []
  }

  /** `serialize_elements` of a concatenation is the two serializations with a
      joining space between them only when two texts meet at the seam. */
  lemma {:induction false} SerializeElementsSplit(a: seq<Element>, b: seq<Element>, opts: SerializeOptions)
    ensures SerializeElements(a + b, opts) == SerializeElements(a, opts) + Bridge(a, b) + SerializeElements(b, opts)
    decreases a
  {
    if a == [] {
      assert a + b == b;
    } else {
      var rest := a[1..];
      assert (a + b)[0] == a[0] && (a + b)[1..] == rest + b;
      if rest == [] {
        assert Joiner(a + b, 0) == Bridge(a, b);
      } else {
        assert (a + b)[1] == rest[0];
        assert Joiner(a + b, 0) == Joiner(a, 0);
        assert Bridge(rest, b) == Bridge(a, b);
        SerializeElementsSplit(rest, b, opts);
      }
    }
  }

  /** A space is written between two texts only in compact output: pretty
      output puts each on its own line instead. */
  lemma TwoTexts(w: Xml.WriterState, x: string, y: string, opts: SerializeOptions)
    requires w.state == Xml.ElementClosed && w.indent < 255
    ensures var els := [Element.Text(Text.Text(x)), Element.Text(Text.Text(y))];
      Xml.Exec(w, SerializeElements(els, opts)) ==
      Xml.Outcome(Ok(()), w.(out := w.out
        + Xml.LineBreak(w.pretty, w.indent) + Escaping.Escape(x)
        + (if w.pretty then "" else " ")
        + Xml.LineBreak(w.pretty, w.indent) + Escaping.Escape(y)))
  {
    var els := [Element.Text(Text.Text(x)), Element.Text(Text.Text(y))];
    TwoTextsCmds(x, y, opts);
    var cs := SerializeElements(els, opts);
    var p := w.pretty;
    var d := w.indent;
    FlatHeight(cs);
    SerializeChildren(w, els, opts);
    TwoTextsRendered(x, y, p, d);
    var lx := Xml.LineBreak(p, d) + Escaping.Escape(x);
    var j: string := if p then "" else " ";
    var ly := Xml.LineBreak(p, d) + Escaping.Escape(y);
    calc {
      w.out + RenderedChildren(cs, p, d);
      w.out + (lx + (j + ly));
      { Xml.Assoc(lx, j, ly); }
      w.out + (lx + j + ly);
      { Xml.Assoc(w.out, lx + j, ly); Xml.Assoc(w.out, lx, j); }
      w.out + lx + j + ly;
      { Xml.Assoc(w.out + lx + j, Xml.LineBreak(p, d), Escaping.Escape(y));
        Xml.Assoc(w.out, Xml.LineBreak(p, d), Escaping.Escape(x)); }
      w.out + Xml.LineBreak(p, d) + Escaping.Escape(x) + j + Xml.LineBreak(p, d) + Escaping.Escape(y);
    }
  }

  lemma TwoTextsCmds(x: string, y: string, opts: SerializeOptions)
    ensures var els := [Element.Text(Text.Text(x)), Element.Text(Text.Text(y))];
      SerializeElements(els, opts) == [Xml.Cmd.Text(x), Xml.Cmd.TextJoin, Xml.Cmd.Text(y)] && CleanSeq(els, opts)
  {
    var ex := Element.Text(Text.Text(x));
    var ey := Element.Text(Text.Text(y));
    var els := [ex, ey];
    var last := [ey];
    assert els[0] == ex && els[1..] == last && last[0] == ey && last[1..] == [];
    assert SerializeElements(last, opts) == [Xml.Cmd.Text(y)] + [] + [];
    assert Joiner(els, 0) == [Xml.Cmd.TextJoin];
    assert CleanSeq(last, opts);
  }

  lemma TwoTextsRendered(x: string, y: string, p: bool, d: nat)
    ensures RenderedChildren([Xml.Cmd.Text(x), Xml.Cmd.TextJoin, Xml.Cmd.Text(y)], p, d) ==
      (Xml.LineBreak(p, d) + Escaping.Escape(x)) + ((if p then "" else " ") + (Xml.LineBreak(p, d) + Escaping.Escape(y)))
  {
    var cs := [Xml.Cmd.Text(x), Xml.Cmd.TextJoin, Xml.Cmd.Text(y)];
    var c2 := [Xml.Cmd.Text(y)];
    var c1 := [Xml.Cmd.TextJoin, Xml.Cmd.Text(y)];
    assert cs[1..] == c1 && c1[1..] == c2 && c2[1..] == [];
    assert Rendered(c2[0], p, d) == Escaping.Escape(y);
    assert RenderedChild(c2[0], p, d) == Xml.LineBreak(p, d) + Escaping.Escape(y);
    assert RenderedChildren(c2[1..], p, d) == "";
    assert RenderedChildren(c2, p, d) == Xml.LineBreak(p, d) + Escaping.Escape(y) + "";
    assert RenderedChildren(c1, p, d) == RenderedChild(c1[0], p, d) + RenderedChildren(c2, p, d);
    assert RenderedChild(cs[0], p, d) == Xml.LineBreak(p, d) + Escaping.Escape(x);
    assert RenderedChildren(cs, p, d) == RenderedChild(cs[0], p, d) + RenderedChildren(c1, p, d);
  }

  /** Closures with no element among them do not nest. */
  lemma {:induction false} FlatHeight(cs: seq<Cmd>)
    requires forall i :: 0 <= i < |cs| ==> !cs[i].Element?
    ensures HeightSeq(cs) == 0
    decreases cs
  {
    if cs != [] {
      FlatHeight(cs[1..]);
    }
  }

  /** A group is transparent: its children's serializations back to back, with
      no space ever inserted between them. */
  lemma {:induction false} GroupWritesNoJoin(els: seq<Element>, opts: SerializeOptions)
    ensures forall i :: 0 <= i < |SerializeEach(els, opts)| ==> !SerializeEach(els, opts)[i].TextJoin?
    decreases els
  {
    if els != [] {
      var first := Serialize(els[0], opts);
      GroupWritesNoJoin(els[1..], opts);
      SerializeHasNoTopJoin(els[0], opts);
      var all := SerializeEach(els, opts);
      forall i | 0 <= i < |all| ensures !all[i].TextJoin? {
        if i >= |first| {
          assert all[i] == SerializeEach(els[1..], opts)[i - |first|];
        }
      }
    }
  }

  /** The closures an element hands to its parent never start with, nor contain at
      their own level, a joining space: only `serialize_elements` adds those. */
  lemma {:induction false} SerializeHasNoTopJoin(e: Element, opts: SerializeOptions)
    ensures forall i :: 0 <= i < |Serialize(e, opts)| ==> !Serialize(e, opts)[i].TextJoin?
    decreases e, 1
  {
    match e
    case FlavorMSTTS(Express(x)) =>
      assert Serialize(e, opts) == SerializeExpress(x, opts);
    case Group(g) =>
      assert Serialize(e, opts) == SerializeEach(g.children, opts);
      GroupWritesNoJoin(g.children, opts);
    case _ =>
  }

  lemma {:induction false} SerializeEachSplit(a: seq<Element>, b: seq<Element>, opts: SerializeOptions)
    ensures SerializeEach(a + b, opts) == SerializeEach(a, opts) + SerializeEach(b, opts)
    decreases a
  {
    if a == [] {
      assert a + b == b;
    } else {
      assert (a + b)[0] == a[0] && (a + b)[1..] == a[1..] + b;
      SerializeEachSplit(a[1..], b, opts);
    }
  }

  /** `mstts::Express` under a flavor other than Microsoft's with checks on:
      the error is returned before anything is written; otherwise it is an
      `mstts:express-as` element with its style and degree. */
  lemma ExpressGate(w: Xml.WriterState, x: Express, opts: SerializeOptions)
    ensures ExpressRefused(opts) ==>
      Xml.Exec(w, Serialize(Element.FlavorMSTTS(MsttsElement.Express(x)), opts)) == Xml.Outcome(Err(Error.Generic(ExpressFlavorMessage)), w)
    ensures !ExpressRefused(opts) ==>
      Serialize(Element.FlavorMSTTS(MsttsElement.Express(x)), opts) ==
      [Xml.Cmd.Element("mstts:express-as",
        [Xml.Cmd.Attr("style", Xml.Escaped(x.expression.style)), Xml.Cmd.Attr("styledegree", Xml.Trusted(Units.Show(x.expression.degree)))]
        + SerializeElements(x.children, opts))]
  {
    assert Serialize(Element.FlavorMSTTS(MsttsElement.Express(x)), opts) == SerializeExpress(x, opts);
  }

  // ---------------------------------------------------------------- the writer loop

  lemma SuffixStep(els: seq<Element>, i: nat, opts: SerializeOptions)
    requires i < |els|
    ensures SerializeElements(els[i..], opts) == Serialize(els[i], opts) + Joiner(els, i) + SerializeElements(els[i + 1..], opts)
  {
    assert els[i..][0] == els[i] && els[i..][1..] == els[i + 1..];
    assert Joiner(els[i..], 0) == Joiner(els, i);
  }

  /** `serialize_elements`: each element in turn, stopping at the first error,
      and a space written straight to the output between two texts unless pretty. */
  method SerializeElementsTo(w: Xml.XmlWriter, els: seq<Element>, opts: SerializeOptions) returns (r: Result<(), Error>)
    modifies w
    ensures Xml.Outcome(r, w.Snapshot()) == Xml.Exec(old(w.Snapshot()), SerializeElements(els, opts))
  {
    var i := 0;
    while i < |els|
      invariant 0 <= i <= |els|
      invariant Xml.Exec(old(w.Snapshot()), SerializeElements(els, opts)) == Xml.Exec(w.Snapshot(), SerializeElements(els[i..], opts))
    {
      var s0 := w.Snapshot();
      var one := Serialize(els[i], opts);
      SuffixStep(els, i, opts);
      ExecAppend(s0, one + Joiner(els, i), SerializeElements(els[i + 1..], opts));
      ExecAppend(s0, one, Joiner(els, i));
      r := w.Run(one);
      if r.Err? {
        return;
      }
      JoinerStep(w.Snapshot(), els, i);
      if !w.pretty && JoinAfter(els, i) {
        w.out := w.out + " ";
      }
      i := i + 1;
    }
    assert els[i..] == [];
    r := Ok(());
  }

  /** The joiner after element `i` writes one space, unless pretty, exactly between two texts. */
  lemma JoinerStep(st: Xml.WriterState, els: seq<Element>, i: nat)
    ensures Xml.Exec(st, Joiner(els, i)) ==
      Xml.Outcome(Ok(()), if !st.pretty && JoinAfter(els, i) then st.(out := st.out + " ") else st)
  {
    if JoinAfter(els, i) {
      ExecSingle(st, Xml.Cmd.TextJoin);
    }
  }

  /** A group's `serialize_xml`: each child in turn, no element around them. */
  method SerializeGroupTo(w: Xml.XmlWriter, g: Group, opts: SerializeOptions) returns (r: Result<(), Error>)
    modifies w
    ensures Xml.Outcome(r, w.Snapshot()) == Xml.Exec(old(w.Snapshot()), SerializeGroup(g, opts))
  {
    var els := g.children;
    var i := 0;
    while i < |els|
      invariant 0 <= i <= |els|
      invariant Xml.Exec(old(w.Snapshot()), SerializeEach(els, opts)) == Xml.Exec(w.Snapshot(), SerializeEach(els[i..], opts))
    {
      assert els[i..][0] == els[i] && els[i..][1..] == els[i + 1..];
      ExecAppend(w.Snapshot(), Serialize(els[i], opts), SerializeEach(els[i + 1..], opts));
      r := w.Run(Serialize(els[i], opts));
      if r.Err? {
        return;
      }
      i := i + 1;
    }
    assert els[i..] == [];
    r := Ok(());
  }

  // ---------------------------------------------------------------- rendering helpers

  /** The attributes of a start tag, as written. */
  function AttrsText(attrs: seq<Cmd>): string
  {
    if attrs == [] then "" else (if attrs[0].Attr? then Xml.AttrText(attrs[0].name, attrs[0].value) else "") + AttrsText(attrs[1..])
  }

  lemma ExecSingle(w: Xml.WriterState, c: Cmd)
    ensures Xml.Exec(w, [c]) == Xml.ExecOne(w, c)
  {
    assert [c][1..] == [];
  }

  /** An element with attributes only is a start tag closed on the spot. */
  lemma {:induction false} RenderedLeaf(attrs: seq<Cmd>, pretty: bool, depth: nat, tag: string)
    requires AllAttrs(attrs)
    ensures RenderedBody(attrs, pretty, depth, tag) == AttrsText(attrs) + Xml.SelfClose(pretty)
    decreases attrs
  {
    if attrs != [] {
      RenderedLeaf(attrs[1..], pretty, depth, tag);
      Xml.Assoc(Xml.AttrText(attrs[0].name, attrs[0].value), AttrsText(attrs[1..]), Xml.SelfClose(pretty));
    }
  }

  /** An element with attributes and at least one child: the start tag, the
      children one level deeper, and the end tag. */
  lemma {:induction false} RenderedParent(attrs: seq<Cmd>, cs: seq<Cmd>, pretty: bool, depth: nat, tag: string)
    requires AllAttrs(attrs) && cs != [] && !cs[0].Attr?
    ensures RenderedBody(attrs + cs, pretty, depth, tag) ==
      AttrsText(attrs) + (">" + RenderedChildren(cs, pretty, depth + 1) + Xml.EndTag(pretty, depth, tag))
    decreases attrs
  {
    if attrs == [] {
      assert attrs + cs == cs;
    } else {
      assert (attrs + cs)[0] == attrs[0] && (attrs + cs)[1..] == attrs[1..] + cs;
      RenderedParent(attrs[1..], cs, pretty, depth, tag);
      Xml.Assoc(Xml.AttrText(attrs[0].name, attrs[0].value), AttrsText(attrs[1..]),
        ">" + RenderedChildren(cs, pretty, depth + 1) + Xml.EndTag(pretty, depth, tag));
    }
  }

  /** A leaf element written into any writer below the nesting limit: the
      lead its position calls for, then `<tag attrs/>`. */
  lemma LeafOutput(w: Xml.WriterState, tag: string, attrs: seq<Cmd>)
    requires AllAttrs(attrs) && w.indent < 255
    ensures Xml.Exec(w, [Xml.Cmd.Element(tag, attrs)]) ==
      Xml.Outcome(Ok(()), Xml.WriteChild(w, "<" + tag + AttrsText(attrs) + Xml.SelfClose(w.pretty)))
  {
    var c := Xml.Cmd.Element(tag, attrs);
    ExecSingle(w, c);
    assert attrs + [] == attrs;
    BodyWellFormed(attrs, []);
    FlatHeight(attrs);
    RenderElement(w, c);
    RenderedLeaf(attrs, w.pretty, w.indent, tag);
    Xml.Assoc("<" + tag, AttrsText(attrs), Xml.SelfClose(w.pretty));
  }

  lemma {:induction false} AttrsTextAppend(a: seq<Cmd>, b: seq<Cmd>)
    ensures AttrsText(a + b) == AttrsText(a) + AttrsText(b)
    decreases a
  {
    if a == [] {
      assert a + b == b;
    } else {
      assert (a + b)[0] == a[0] && (a + b)[1..] == a[1..] + b;
      AttrsTextAppend(a[1..], b);
      Xml.Assoc(if a[0].Attr? then Xml.AttrText(a[0].name, a[0].value) else "", AttrsText(a[1..]), AttrsText(b));
    }
  }

  // ---------------------------------------------------------------- attribute names

  /** The names of the attributes in a list of commands, in order. */
  function AttrNames(cs: seq<Xml.Cmd>): (r: seq<string>)
    ensures |r| == |cs|
    ensures forall i :: 0 <= i < |cs| && cs[i].Attr? ==> r[i] == cs[i].name
  {
    if cs == [] then [] else [if cs[0].Attr? then cs[0].name else ""] + AttrNames(cs[1..])
  }

  lemma {:induction false} AttrNamesAppend(a: seq<Xml.Cmd>, b: seq<Xml.Cmd>)
    ensures AttrNames(a + b) == AttrNames(a) + AttrNames(b)
    decreases a
  {
    if a == [] {
      assert a + b == b;
    } else {
      assert (a + b)[0] == a[0] && (a + b)[1..] == a[1..] + b;
      AttrNamesAppend(a[1..], b);
    }
  }

  lemma OptAttrNames(name: string, v: Option<Xml.AttrValue>)
    ensures AttrNames(OptAttr(name, v)) == if v.Some? then [name] else []
  {
    if v.Some? {
      OneAttrName(Xml.Cmd.Attr(name, v.value));
    }
  }

  lemma OneAttrName(c: Xml.Cmd)
    requires c.Attr?
    ensures AttrNames([c]) == [c.name]
  {
    assert [c][1..] == [];
  }

  // ---------------------------------------------------------------- one tagged element

  /** What follows the attributes of an element: "/>" when nothing was written
      inside it, else ">", the children one level deeper, and the end tag. */
  function ChildrenPart(cs: seq<Cmd>, pretty: bool, depth: nat, tag: string): string
  {
    if cs == [] then Xml.SelfClose(pretty) else ">" + RenderedChildren(cs, pretty, depth + 1) + Xml.EndTag(pretty, depth, tag)
  }

  lemma {:induction false} HeightAttrs(attrs: seq<Cmd>, cs: seq<Cmd>)
    requires AllAttrs(attrs)
    ensures HeightSeq(attrs + cs) == HeightSeq(cs)
    decreases attrs
  {
    if attrs == [] {
      assert attrs + cs == cs;
    } else {
      assert (attrs + cs)[0] == attrs[0] && (attrs + cs)[1..] == attrs[1..] + cs;
      HeightAttrs(attrs[1..], cs);
    }
  }

  /** A well-formed element: its start tag, attributes and children, written
      after the lead its position calls for. */
  lemma ParentRendered(w: Xml.WriterState, tag: string, attrs: seq<Cmd>, cs: seq<Cmd>)
    requires AllAttrs(attrs) && WellFormedChildren(cs, false) && w.indent + 1 + HeightSeq(cs) <= 255
    ensures Xml.Exec(w, [Xml.Cmd.Element(tag, attrs + cs)]) ==
      Xml.Outcome(Ok(()), Xml.WriteChild(w, "<" + tag + AttrsText(attrs) + ChildrenPart(cs, w.pretty, w.indent, tag)))
  {
    var c := Xml.Cmd.Element(tag, attrs + cs);
    ExecSingle(w, c);
    HeightAttrs(attrs, cs);
    BodyWellFormed(attrs, cs);
    RenderElement(w, c);
    if cs == [] {
      assert attrs + cs == attrs;
      RenderedLeaf(attrs, w.pretty, w.indent, tag);
    } else {
      assert !cs[0].Attr?;
      RenderedParent(attrs, cs, w.pretty, w.indent, tag);
    }
    Xml.Assoc("<" + tag, AttrsText(attrs), ChildrenPart(cs, w.pretty, w.indent, tag));
  }

  /** An element serialized as one tagged element: it succeeds exactly when
      nothing inside it is refused, and then writes its start tag, attributes
      and children; otherwise it fails. */
  lemma TaggedOutput(w: Xml.WriterState, e: Element, opts: SerializeOptions, tag: string, attrs: seq<Cmd>, cs: seq<Cmd>)
    requires Serialize(e, opts) == [Xml.Cmd.Element(tag, attrs + cs)] && AllAttrs(attrs)
    requires Clean(e, opts) ==> WellFormedChildren(cs, false)
    requires w.indent + 1 + HeightSeq(cs) <= 255
    ensures var o := Xml.Exec(w, Serialize(e, opts));
      (o.result.Ok? <==> Clean(e, opts)) &&
      (Clean(e, opts) ==> o.after == Xml.WriteChild(w, "<" + tag + AttrsText(attrs) + ChildrenPart(cs, w.pretty, w.indent, tag)))
  {
    if Clean(e, opts) {
      ParentRendered(w, tag, attrs, cs);
    } else {
      RefusedHasFail(e, opts);
      FailAbortsSeq(w, Serialize(e, opts));
    }
  }
}
