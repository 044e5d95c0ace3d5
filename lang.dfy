/** Speech in another language (`src/lang.rs`): a `lang` element with the
    language, an optional failure behaviour, and children. */
module LangElement {
  import opened Wrappers
  import opened Options
  import Errors
  import E = Elements
  import Xml
  import Escaping
  import opened XmlTheory
  import opened Serialization
  import MarkElement

  /** `LangFailure::as_str`, read back. */
  function FailureFromText(s: string): Option<E.LangFailure>
  {
    match s
    case "changevoice" => Some(E.LangFailure.ChangeVoice)
    case "ignoretext" => Some(E.LangFailure.IgnoreText)
    case "ignorelang" => Some(E.LangFailure.IgnoreLang)
    case "processorchoice" => Some(E.LangFailure.ProcessorChoice)
    case _ => Option.None
  }

  /** Each failure behaviour has its own keyword, which needs no escaping. */
  lemma FailureKeywords(f: E.LangFailure)
    ensures FailureFromText(E.LangFailureText(f)) == Some(f)
    ensures Escaping.Escape(E.LangFailureText(f)) == E.LangFailureText(f)
  {
    Escaping.EscapeIdentity(E.LangFailureText(f));
  }

  class Lang {
    var language: string
    var failureBehavior: Option<E.LangFailure>
    var children: seq<E.Element>

    /** `Lang::new` and `lang()`: no failure behaviour. */
    constructor (language: string, elements: seq<E.Element>)
      ensures this.language == language && failureBehavior == Option.None && children == elements
    {
      this.language := language;
      failureBehavior := Option.None;
      children := elements;
    }

    /** `set_failure_behavior` (and `with_failure_behavior`, which returns the element). */
    method SetFailureBehavior(behavior: E.LangFailure)
      modifies this
      ensures failureBehavior == Some(behavior)
      ensures language == old(language) && children == old(children)
    {
      failureBehavior := Some(behavior);
    }

    /** `push`, `+` and `+=`. */
    method Push(e: E.Element)
      modifies this
      ensures children == old(children) + [e]
      ensures language == old(language) && failureBehavior == old(failureBehavior)
    {
      children := children + [e];
    }

    method Extend(es: seq<E.Element>)
      modifies this
      ensures children == old(children) + es
      ensures language == old(language) && failureBehavior == old(failureBehavior)
    {
      children := children + es;
    }

    function Value(): E.Lang
      reads this
    {
      E.Lang.Lang(language, failureBehavior, children)
    }

    /** `serialize_xml`: `xml:lang`, then `onlangfailure` if set, then the children. */
    method SerializeXml(w: Xml.XmlWriter, opts: SerializeOptions) returns (r: Result<(), Errors.Error>)
      modifies w
      ensures Xml.Outcome(r, w.Snapshot()) == Xml.Exec(old(w.Snapshot()), E.SerializeLang(Value(), opts))
    {
      ghost var before := w.Snapshot();
      var body := E.LangAttrs(Value()) + E.SerializeElements(children, opts);
      r := w.Element("lang", body);
      ExecSingle(before, Xml.Cmd.Element("lang", body));
    }
  }

  /** The `onlangfailure` attribute as written, or nothing. */
  function FailureAttrText(f: Option<E.LangFailure>): string
  {
    if f.Some? then Xml.AttrText("onlangfailure", Xml.Escaped(E.LangFailureText(f.value))) else ""
  }

  lemma LangAttrsText(l: E.Lang)
    ensures AttrsText(E.LangAttrs(l)) == Xml.AttrText("xml:lang", Xml.Escaped(l.language)) + FailureAttrText(l.failureBehavior)
  {
    var a := [Xml.Cmd.Attr("xml:lang", Xml.Escaped(l.language))];
    var f := E.OptAttr("onlangfailure", if l.failureBehavior.Some? then Some(Xml.Escaped(E.LangFailureText(l.failureBehavior.value))) else Option.None);
    AttrsTextAppend(a, f);
    MarkElement.OneAttrText("xml:lang", Xml.Escaped(l.language));
    if l.failureBehavior.Some? {
      MarkElement.OneAttrText("onlangfailure", Xml.Escaped(E.LangFailureText(l.failureBehavior.value)));
    }
  }

  /** A `lang` element succeeds exactly when none of its children is refused;
      it then writes `xml:lang` first, `onlangfailure` when a behaviour is set,
      and its children, self-closing when it has none. */
  lemma LangWritten(w: Xml.WriterState, l: E.Lang, opts: SerializeOptions)
    requires w.indent + 1 + HeightSeq(E.SerializeElements(l.children, opts)) <= 255
    ensures var o := Xml.Exec(w, E.SerializeLang(l, opts));
      (o.result.Ok? <==> CleanSeq(l.children, opts)) &&
      (CleanSeq(l.children, opts) ==> o.after == Xml.WriteChild(w,
        "<lang" + Xml.AttrText("xml:lang", Xml.Escaped(l.language)) + FailureAttrText(l.failureBehavior)
        + ChildrenPart(E.SerializeElements(l.children, opts), w.pretty, w.indent, "lang")))
  {
    var cs := E.SerializeElements(l.children, opts);
    assert E.Serialize(E.Element.Lang(l), opts) == E.SerializeLang(l, opts);
    LangAttrsAreAttrs(l);
    if CleanSeq(l.children, opts) {
      SerializeElementsWellFormed(l.children, opts, false);
    }
    TaggedOutput(w, E.Element.Lang(l), opts, "lang", E.LangAttrs(l), cs);
    LangAttrsText(l);
    assert "<" + "lang" == "<lang";
    Xml.Assoc("<lang", Xml.AttrText("xml:lang", Xml.Escaped(l.language)), FailureAttrText(l.failureBehavior));
  }
}
