/** A pause (`src/break.rs`), given either as a strength keyword or as a time. */
module BreakElement {
  import opened Wrappers
  import opened Options
  import opened Units
  import Errors
  import E = Elements
  import Xml
  import Escaping
  import opened Serialization
  import MarkElement

  /** `BreakStrength::default()`. */
  const DefaultStrength := E.BreakStrength.Medium

  /** `Break::new_with_strength` and `From<BreakStrength>`. */
  function NewWithStrength(s: E.BreakStrength): E.Break
  {
    E.Break.Strength(s)
  }

  /** `Break::new_with_time`, `From<S: Into<TimeDesignation>>` and `breaks()` on a time. */
  function NewWithTime(t: TimeDesignation): E.Break
  {
    E.Break.Time(t)
  }

  /** The keyword a strength is written as, read back. */
  function StrengthFromText(s: string): Option<E.BreakStrength>
  {
    match s
    case "none" => Some(E.BreakStrength.None)
    case "x-weak" => Some(E.BreakStrength.ExtraWeak)
    case "weak" => Some(E.BreakStrength.Weak)
    case "medium" => Some(E.BreakStrength.Medium)
    case "strong" => Some(E.BreakStrength.Strong)
    case "x-strong" => Some(E.BreakStrength.ExtraStrong)
    case _ => Option.None
  }

  /** Each strength has its own keyword, and the keyword names that strength
      again; none of the keywords needs escaping. */
  lemma StrengthKeywords(s: E.BreakStrength)
    ensures StrengthFromText(E.StrengthText(s)) == Some(s)
    ensures Escaping.Escape(E.StrengthText(s)) == E.StrengthText(s)
  {
    Escaping.EscapeIdentity(E.StrengthText(s));
  }

  /** `Break::serialize_xml`. */
  method SerializeBreak(w: Xml.XmlWriter, b: E.Break, opts: SerializeOptions) returns (r: Result<(), Errors.Error>)
    modifies w
    ensures Xml.Outcome(r, w.Snapshot()) == Xml.Exec(old(w.Snapshot()), E.Serialize(E.Element.Break(b), opts))
  {
    ghost var before := w.Snapshot();
    r := w.Element("break", [E.BreakAttr(b)]);
    ExecSingle(before, Xml.Cmd.Element("break", [E.BreakAttr(b)]));
  }

  /** A break never fails below the nesting limit: a self-closing `break` with
      exactly one attribute, `strength` holding the keyword (which needs no
      escaping, see `StrengthKeywords`) or `time` holding the time in milliseconds. */
  lemma BreakWritten(w: Xml.WriterState, b: E.Break, opts: SerializeOptions)
    requires w.indent < 255
    ensures b.Strength? ==>
      Xml.Exec(w, E.Serialize(E.Element.Break(b), opts)) ==
      Xml.Outcome(Ok(()), Xml.WriteChild(w, "<break" + Xml.AttrText("strength", Xml.Escaped(E.StrengthText(b.strength))) + Xml.SelfClose(w.pretty)))
    ensures b.Time? ==>
      Xml.Exec(w, E.Serialize(E.Element.Break(b), opts)) ==
      Xml.Outcome(Ok(()), Xml.WriteChild(w, "<break" + Xml.AttrText("time", Xml.Trusted(TimeText(b.time))) + Xml.SelfClose(w.pretty)))
  {
    var a := E.BreakAttr(b);
    assert E.Serialize(E.Element.Break(b), opts) == [Xml.Cmd.Element("break", [a])];
    MarkElement.OneAttrText(a.name, a.value);
    LeafOutput(w, "break", [a]);
    assert "<" + "break" == "<break";
  }

  /** The `time` a break writes reads back as the same time: non-negative times
      parse to their value, negative ones are refused. */
  lemma BreakTimeReadsBack(t: TimeDesignation)
    ensures E.BreakAttr(NewWithTime(t)) == Xml.Cmd.Attr("time", Xml.Trusted(TimeText(t)))
    ensures !t.millis.negative ==> TimeFromStr(E.BreakAttr(NewWithTime(t)).value.s) == Ok(TimeDesignation(Normalize(t.millis)))
    ensures t.millis.negative ==> TimeFromStr(E.BreakAttr(NewWithTime(t)).value.s).Err?
  {
    TimeTextRoundTrip(t);
  }

  lemma ExtraWeakAttr()
    ensures Xml.AttrText("strength", Xml.Escaped("x-weak")) == " strength=\"x-weak\""
  {
    Escaping.EscapeIdentity("x-weak");
  }

  /** Kept apart from `BreakExample`, where the same string step runs out of resource. */
  lemma BreakExampleText(attr: string)
    requires attr == " strength=\"x-weak\""
    ensures "" + ("<break" + attr + "/>") == "<break strength=\"x-weak\"/>"
  {
  }

  /** `<break strength="x-weak"/>` as the first thing in a compact document. */
  lemma BreakExample()
    ensures Xml.Exec(Xml.WriterState("", 0, false, Xml.DocumentStart), E.Serialize(E.Element.Break(NewWithStrength(E.BreakStrength.ExtraWeak)), DefaultOptions))
      == Xml.Outcome(Ok(()), Xml.WriterState("<break strength=\"x-weak\"/>", 0, false, Xml.ElementClosed))
  {
    var w := Xml.WriterState("", 0, false, Xml.DocumentStart);
    BreakWritten(w, NewWithStrength(E.BreakStrength.ExtraWeak), DefaultOptions);
    ExtraWeakAttr();
    BreakExampleText(Xml.AttrText("strength", Xml.Escaped("x-weak")));
  }
}
