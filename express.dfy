/** The Microsoft `mstts:express-as` element (`src/mstts/express.rs`): a
    speaking style with a degree, over a run of children, written only for
    the Microsoft flavor unless checks are off. */
module MsttsExpress {
  import opened Wrappers
  import opened Errors
  import opened Options
  import E = Elements
  import Xml
  import Escaping
  import Units
  import opened XmlTheory
  import opened Serialization

  /** The predefined styles, one per `define_expressions!` entry. */
  datatype Style =
    | Advertisement
    | Affectionate
    | Angry
    | Assistant
    | Calm
    | Chat
    | Cheerful
    | CustomerService
    | Depressed
    | Disgruntled
    | NarrationDocumentary
    | Embarrassed
    | Empathetic
    | Envious
    | Excited
    | Fearful
    | Friendly
    | Gentle
    | Hopeful
    | Lyrical
    | NarrationProfessional
    | NarrationRelaxed
    | Newscast
    | NewscastCasual
    | NewscastFormal
    | PoetryReading
    | Sad
    | Serious
    | Shouting
    | SportsCommentary
    | SportsCommentaryExcited
    | Whispering
    | Terrified
    | Unfriendly

  /** The name each style is written with. */
  function StyleName(s: Style): string
  {
    match s
    case Advertisement => "advertisement_upbeat"
    case Affectionate => "affectionate"
    case Angry => "angry"
    case Assistant => "assistant"
    case Calm => "calm"
    case Chat => "chat"
    case Cheerful => "cheerful"
    case CustomerService => "customerservice"
    case Depressed => "depressed"
    case Disgruntled => "disgruntled"
    case NarrationDocumentary => "documentary-narration"
    case Embarrassed => "embarrassed"
    case Empathetic => "empathetic"
    case Envious => "envious"
    case Excited => "excited"
    case Fearful => "fearful"
    case Friendly => "friendly"
    case Gentle => "gentle"
    case Hopeful => "hopeful"
    case Lyrical => "lyrical"
    case NarrationProfessional => "narration-professional"
    case NarrationRelaxed => "narration-relaxed"
    case Newscast => "newscast"
    case NewscastCasual => "newscast-casual"
    case NewscastFormal => "newscast-formal"
    case PoetryReading => "poetry-reading"
    case Sad => "sad"
    case Serious => "serious"
    case Shouting => "shouting"
    case SportsCommentary => "sports_commentary"
    case SportsCommentaryExcited => "sports_commentary_excited"
    case Whispering => "whispering"
    case Terrified => "terrified"
    case Unfriendly => "unfriendly"
  }

  function StyleFromName(n: string): Option<Style>
  {
    match n
    case "advertisement_upbeat" => Some(Advertisement)
    case "affectionate" => Some(Affectionate)
    case "angry" => Some(Angry)
    case "assistant" => Some(Assistant)
    case "calm" => Some(Calm)
    case "chat" => Some(Chat)
    case "cheerful" => Some(Cheerful)
    case "customerservice" => Some(CustomerService)
    case "depressed" => Some(Depressed)
    case "disgruntled" => Some(Disgruntled)
    case "documentary-narration" => Some(NarrationDocumentary)
    case "embarrassed" => Some(Embarrassed)
    case "empathetic" => Some(Empathetic)
    case "envious" => Some(Envious)
    case "excited" => Some(Excited)
    case "fearful" => Some(Fearful)
    case "friendly" => Some(Friendly)
    case "gentle" => Some(Gentle)
    case "hopeful" => Some(Hopeful)
    case "lyrical" => Some(Lyrical)
    case "narration-professional" => Some(NarrationProfessional)
    case "narration-relaxed" => Some(NarrationRelaxed)
    case "newscast" => Some(Newscast)
    case "newscast-casual" => Some(NewscastCasual)
    case "newscast-formal" => Some(NewscastFormal)
    case "poetry-reading" => Some(PoetryReading)
    case "sad" => Some(Sad)
    case "serious" => Some(Serious)
    case "shouting" => Some(Shouting)
    case "sports_commentary" => Some(SportsCommentary)
    case "sports_commentary_excited" => Some(SportsCommentaryExcited)
    case "whispering" => Some(Whispering)
    case "terrified" => Some(Terrified)
    case "unfriendly" => Some(Unfriendly)
    case _ => Option.None
  }

  /** Every style has its own name. */
  lemma StyleNamesDistinct(s: Style)
    ensures StyleFromName(StyleName(s)) == Some(s)
  {
    if s.Advertisement? || s.Affectionate? || s.Angry? || s.Assistant? || s.Calm? || s.Chat? || s.Cheerful? || s.CustomerService? || s.Depressed? || s.Disgruntled? {
      NamesDistinct0(s);
    } else if s.NarrationDocumentary? || s.Embarrassed? || s.Empathetic? || s.Envious? || s.Excited? || s.Fearful? || s.Friendly? || s.Gentle? {
      NamesDistinct1(s);
    } else if s.Hopeful? || s.Lyrical? || s.NarrationProfessional? || s.NarrationRelaxed? || s.Newscast? || s.NewscastCasual? {
      NamesDistinct2(s);
    } else if s.NewscastFormal? || s.PoetryReading? || s.Sad? || s.Serious? {
      NamesDistinct3(s);
    } else if s.Shouting? || s.SportsCommentary? || s.SportsCommentaryExcited? {
      NamesDistinct4(s);
    } else {
      NamesDistinct5(s);
    }
  }

  lemma NamesDistinct0(s: Style)
    requires s.Advertisement? || s.Affectionate? || s.Angry? || s.Assistant? || s.Calm? || s.Chat? || s.Cheerful? || s.CustomerService? || s.Depressed? || s.Disgruntled?
    ensures StyleFromName(StyleName(s)) == Some(s)
  {
    match s {
      case Advertisement =>
      case Affectionate =>
      case Angry =>
      case Assistant =>
      case Calm =>
      case Chat =>
      case Cheerful =>
      case CustomerService =>
      case Depressed =>
      case Disgruntled =>
    }
  }

  lemma NamesDistinct1(s: Style)
    requires s.NarrationDocumentary? || s.Embarrassed? || s.Empathetic? || s.Envious? || s.Excited? || s.Fearful? || s.Friendly? || s.Gentle?
    ensures StyleFromName(StyleName(s)) == Some(s)
  {
    match s {
      case NarrationDocumentary =>
      case Embarrassed =>
      case Empathetic =>
      case Envious =>
      case Excited =>
      case Fearful =>
      case Friendly =>
      case Gentle =>
    }
  }

  lemma NamesDistinct2(s: Style)
    requires s.Hopeful? || s.Lyrical? || s.NarrationProfessional? || s.NarrationRelaxed? || s.Newscast? || s.NewscastCasual?
    ensures StyleFromName(StyleName(s)) == Some(s)
  {
    match s {
      case Hopeful =>
      case Lyrical =>
      case NarrationProfessional =>
      case NarrationRelaxed =>
      case Newscast =>
      case NewscastCasual =>
    }
  }

  lemma NamesDistinct3(s: Style)
    requires s.NewscastFormal? || s.PoetryReading? || s.Sad? || s.Serious?
    ensures StyleFromName(StyleName(s)) == Some(s)
  {
    match s {
      case NewscastFormal =>
      case PoetryReading =>
      case Sad =>
      case Serious =>
    }
  }

  lemma NamesDistinct4(s: Style)
    requires s.Shouting? || s.SportsCommentary? || s.SportsCommentaryExcited?
    ensures StyleFromName(StyleName(s)) == Some(s)
  {
    match s {
      case Shouting =>
      case SportsCommentary =>
      case SportsCommentaryExcited =>
    }
  }

  lemma NamesDistinct5(s: Style)
    requires s.Whispering? || s.Terrified? || s.Unfriendly?
    ensures StyleFromName(StyleName(s)) == Some(s)
  {
    match s {
      case Whispering =>
      case Terrified =>
      case Unfriendly =>
    }
  }

  /** No style name holds a markup character, so each is written as is. */
  lemma StyleNamesPlain(s: Style)
    ensures Escaping.Escape(StyleName(s)) == StyleName(s)
  {
    if s.Advertisement? || s.Affectionate? || s.Angry? || s.Assistant? || s.Calm? {
      PlainNames0(s);
    } else if s.Chat? || s.Cheerful? || s.CustomerService? || s.Depressed? || s.Disgruntled? {
      PlainNames1(s);
    } else if s.NarrationDocumentary? || s.Embarrassed? || s.Empathetic? || s.Envious? {
      PlainNames2(s);
    } else if s.Excited? || s.Fearful? || s.Friendly? || s.Gentle? {
      PlainNames3(s);
    } else if s.Hopeful? || s.Lyrical? || s.NarrationProfessional? || s.NarrationRelaxed? {
      PlainNames4(s);
    } else if s.Newscast? || s.NewscastCasual? || s.NewscastFormal? || s.PoetryReading? {
      PlainNames5(s);
    } else if s.Sad? || s.Serious? || s.Shouting? || s.SportsCommentary? {
      PlainNames6(s);
    } else {
      PlainNames7(s);
    }
  }

  lemma PlainNames0(s: Style)
    requires s.Advertisement? || s.Affectionate? || s.Angry? || s.Assistant? || s.Calm?
    ensures Escaping.Escape(StyleName(s)) == StyleName(s)
  {
    match s {
      case Advertisement => Escaping.EscapeIdentity("advertisement_upbeat");
      case Affectionate => Escaping.EscapeIdentity("affectionate");
      case Angry => Escaping.EscapeIdentity("angry");
      case Assistant => Escaping.EscapeIdentity("assistant");
      case Calm => Escaping.EscapeIdentity("calm");
    }
  }

  lemma PlainNames1(s: Style)
    requires s.Chat? || s.Cheerful? || s.CustomerService? || s.Depressed? || s.Disgruntled?
    ensures Escaping.Escape(StyleName(s)) == StyleName(s)
  {
    match s {
      case Chat => Escaping.EscapeIdentity("chat");
      case Cheerful => Escaping.EscapeIdentity("cheerful");
      case CustomerService => Escaping.EscapeIdentity("customerservice");
      case Depressed => Escaping.EscapeIdentity("depressed");
      case Disgruntled => Escaping.EscapeIdentity("disgruntled");
    }
  }

  lemma PlainNames2(s: Style)
    requires s.NarrationDocumentary? || s.Embarrassed? || s.Empathetic? || s.Envious?
    ensures Escaping.Escape(StyleName(s)) == StyleName(s)
  {
    match s {
      case NarrationDocumentary => Escaping.EscapeIdentity("documentary-narration");
      case Embarrassed => Escaping.EscapeIdentity("embarrassed");
      case Empathetic => Escaping.EscapeIdentity("empathetic");
      case Envious => Escaping.EscapeIdentity("envious");
    }
  }

  lemma PlainNames3(s: Style)
    requires s.Excited? || s.Fearful? || s.Friendly? || s.Gentle?
    ensures Escaping.Escape(StyleName(s)) == StyleName(s)
  {
    match s {
      case Excited => Escaping.EscapeIdentity("excited");
      case Fearful => Escaping.EscapeIdentity("fearful");
      case Friendly => Escaping.EscapeIdentity("friendly");
      case Gentle => Escaping.EscapeIdentity("gentle");
    }
  }

  lemma PlainNames4(s: Style)
    requires s.Hopeful? || s.Lyrical? || s.NarrationProfessional? || s.NarrationRelaxed?
    ensures Escaping.Escape(StyleName(s)) == StyleName(s)
  {
    match s {
      case Hopeful => Escaping.EscapeIdentity("hopeful");
      case Lyrical => Escaping.EscapeIdentity("lyrical");
      case NarrationProfessional => Escaping.EscapeIdentity("narration-professional");
      case NarrationRelaxed => Escaping.EscapeIdentity("narration-relaxed");
    }
  }

  lemma PlainNames5(s: Style)
    requires s.Newscast? || s.NewscastCasual? || s.NewscastFormal? || s.PoetryReading?
    ensures Escaping.Escape(StyleName(s)) == StyleName(s)
  {
    match s {
      case Newscast => Escaping.EscapeIdentity("newscast");
      case NewscastCasual => Escaping.EscapeIdentity("newscast-casual");
      case NewscastFormal => Escaping.EscapeIdentity("newscast-formal");
      case PoetryReading => Escaping.EscapeIdentity("poetry-reading");
    }
  }

  lemma PlainNames6(s: Style)
    requires s.Sad? || s.Serious? || s.Shouting? || s.SportsCommentary?
    ensures Escaping.Escape(StyleName(s)) == StyleName(s)
  {
    match s {
      case Sad => Escaping.EscapeIdentity("sad");
      case Serious => Escaping.EscapeIdentity("serious");
      case Shouting => Escaping.EscapeIdentity("shouting");
      case SportsCommentary => Escaping.EscapeIdentity("sports_commentary");
    }
  }

  lemma PlainNames7(s: Style)
    requires s.SportsCommentaryExcited? || s.Whispering? || s.Terrified? || s.Unfriendly?
    ensures Escaping.Escape(StyleName(s)) == StyleName(s)
  {
    match s {
      case SportsCommentaryExcited => Escaping.EscapeIdentity("sports_commentary_excited");
      case Whispering => Escaping.EscapeIdentity("whispering");
      case Terrified => Escaping.EscapeIdentity("terrified");
      case Unfriendly => Escaping.EscapeIdentity("unfriendly");
    }
  }

  /** `1.0`, the degree a style converts to, and the bounds `0.01` and `2.0`
      that `with_degree` clamps to. */
  const DefaultDegree := Units.F32(false, 1, 0)
  const MinDegree := Units.F32(false, 1, 2)
  const MaxDegree := Units.F32(false, 2, 0)

  /** `From<style> for Expression`: the style's name at the default degree. */
  function FromStyle(s: Style): (x: E.Expression)
    ensures x.style == StyleName(s) && x.degree == DefaultDegree
  {
    E.Expression.Expression(StyleName(s), DefaultDegree)
  }

  /** `with_degree`: the degree is clamped to the accepted range, and a degree
      already in range is kept as given. */
  function WithDegree(s: Style, degree: Units.F32): (x: E.Expression)
    ensures x.style == StyleName(s)
    ensures !Units.Less(x.degree, MinDegree) && !Units.Less(MaxDegree, x.degree)
    ensures !Units.Less(degree, MinDegree) && !Units.Less(MaxDegree, degree) ==> x.degree == degree
    ensures Units.Less(degree, MinDegree) ==> x.degree == MinDegree
    ensures Units.Less(MaxDegree, degree) ==> x.degree == MaxDegree
  {
    Units.ClampOutside(degree, MinDegree, MaxDegree);
    E.Expression.Expression(StyleName(s), Units.Clamp(degree, MinDegree, MaxDegree))
  }

  /** The `styledegree` attribute reads back as the degree, in shortest form. */
  lemma DegreeReadsBack(x: E.Expression)
    ensures Units.ParseF32(Units.Show(x.degree)) == Some(Units.Normalize(x.degree))
  {
    Units.ShowRoundTrip(x.degree);
  }

  class Express {
    var expression: E.Expression
    var children: seq<E.Element>

    /** `Express::new` and `express()`. */
    constructor (expression: E.Expression, elements: seq<E.Element>)
      ensures this.expression == expression && children == elements
    {
      this.expression := expression;
      children := elements;
    }

    method Push(e: E.Element)
      modifies this
      ensures children == old(children) + [e] && expression == old(expression)
    {
      children := children + [e];
    }

    method Extend(es: seq<E.Element>)
      modifies this
      ensures children == old(children) + es && expression == old(expression)
    {
      children := children + es;
    }

    /** `into_el`: the element this section becomes. */
    function Value(): E.Element
      reads this
    {
      E.Element.FlavorMSTTS(E.MsttsElement.Express(E.Express.Express(expression, children)))
    }

    /** `serialize_xml`: refused before anything is written when checks are on
        and the flavor is not Microsoft's; otherwise the style, the degree, then
        the children. */
    method SerializeXml(w: Xml.XmlWriter, opts: SerializeOptions) returns (r: Result<(), Error>)
      modifies w
      ensures Xml.Outcome(r, w.Snapshot()) == Xml.Exec(old(w.Snapshot()), E.Serialize(Value(), opts))
    {
      ghost var before := w.Snapshot();
      ghost var x := E.Express.Express(expression, children);
      ExpressGate(before, x, opts);
      if opts.performChecks && opts.flavor != MicrosoftAzureCognitiveSpeechServices {
        return Err(Error.Generic(E.ExpressFlavorMessage));
      }
      var body := [Xml.Cmd.Attr("style", Xml.Escaped(expression.style)), Xml.Cmd.Attr("styledegree", Xml.Trusted(Units.Show(expression.degree)))]
        + E.SerializeElements(children, opts);
      r := w.Element("mstts:express-as", body);
      ExecSingle(before, Xml.Cmd.Element("mstts:express-as", body));
    }
  }

  function ExpressAttrs(x: E.Express): seq<Xml.Cmd>
  {
    [Xml.Cmd.Attr("style", Xml.Escaped(x.expression.style)), Xml.Cmd.Attr("styledegree", Xml.Trusted(Units.Show(x.expression.degree)))]
  }

  /** Under the Microsoft flavor, or with checks off, an `express-as` section
      succeeds exactly when none of its children is refused, and writes its
      style and degree before its children. Otherwise it is refused with the
      writer untouched. */
  lemma ExpressWritten(w: Xml.WriterState, x: E.Express, opts: SerializeOptions)
    requires w.indent + 1 + HeightSeq(E.SerializeElements(x.children, opts)) <= 255
    ensures var o := Xml.Exec(w, E.Serialize(E.Element.FlavorMSTTS(E.MsttsElement.Express(x)), opts));
      (E.ExpressRefused(opts) ==> o == Xml.Outcome(Err(Error.Generic(E.ExpressFlavorMessage)), w)) &&
      (!E.ExpressRefused(opts) ==>
        (o.result.Ok? <==> CleanSeq(x.children, opts)) &&
        (CleanSeq(x.children, opts) ==> o.after == Xml.WriteChild(w,
          "<mstts:express-as" + Xml.AttrText("style", Xml.Escaped(x.expression.style))
          + Xml.AttrText("styledegree", Xml.Trusted(Units.Show(x.expression.degree)))
          + ChildrenPart(E.SerializeElements(x.children, opts), w.pretty, w.indent, "mstts:express-as"))))
  {
    ExpressGate(w, x, opts);
    if !E.ExpressRefused(opts) {
      AcceptedWritten(w, x, opts);
    }
  }

  lemma AcceptedWritten(w: Xml.WriterState, x: E.Express, opts: SerializeOptions)
    requires !E.ExpressRefused(opts)
    requires w.indent + 1 + HeightSeq(E.SerializeElements(x.children, opts)) <= 255
    ensures var o := Xml.Exec(w, E.Serialize(E.Element.FlavorMSTTS(E.MsttsElement.Express(x)), opts));
      (o.result.Ok? <==> CleanSeq(x.children, opts)) &&
      (CleanSeq(x.children, opts) ==> o.after == Xml.WriteChild(w,
        "<mstts:express-as" + Xml.AttrText("style", Xml.Escaped(x.expression.style))
        + Xml.AttrText("styledegree", Xml.Trusted(Units.Show(x.expression.degree)))
        + ChildrenPart(E.SerializeElements(x.children, opts), w.pretty, w.indent, "mstts:express-as")))
  {
    var e := E.Element.FlavorMSTTS(E.MsttsElement.Express(x));
    var attrs := ExpressAttrs(x);
    var cs := E.SerializeElements(x.children, opts);
    ExpressGate(w, x, opts);
    assert Clean(e, opts) == CleanSeq(x.children, opts);
    if CleanSeq(x.children, opts) {
      SerializeElementsWellFormed(x.children, opts, false);
    }
    TaggedOutput(w, e, opts, "mstts:express-as", attrs, cs);
    ExpressOpening(x);
  }

  lemma ExpressOpening(x: E.Express)
    ensures "<" + "mstts:express-as" + AttrsText(ExpressAttrs(x)) ==
      "<mstts:express-as" + Xml.AttrText("style", Xml.Escaped(x.expression.style))
      + Xml.AttrText("styledegree", Xml.Trusted(Units.Show(x.expression.degree)))
  {
    TwoAttrsText(ExpressAttrs(x));
    assert "<" + "mstts:express-as" == "<mstts:express-as";
    Xml.Assoc("<mstts:express-as", Xml.AttrText("style", Xml.Escaped(x.expression.style)),
      Xml.AttrText("styledegree", Xml.Trusted(Units.Show(x.expression.degree))));
  }

  lemma TwoAttrsText(attrs: seq<Xml.Cmd>)
    requires |attrs| == 2 && attrs[0].Attr? && attrs[1].Attr?
    ensures AttrsText(attrs) == Xml.AttrText(attrs[0].name, attrs[0].value) + Xml.AttrText(attrs[1].name, attrs[1].value)
  {
    assert attrs[1..][1..] == [];
    assert AttrsText(attrs[1..]) == Xml.AttrText(attrs[1].name, attrs[1].value) + AttrsText([]);
  }
}
