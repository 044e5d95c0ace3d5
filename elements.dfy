/**
 * The element tree and its serializers.
 *
 * Every element kind of the catalogue (`src/text.rs`, `src/audio.rs`,
 * `src/voice.rs`, `src/break.rs`, `src/emphasis.rs`, `src/mark.rs`,
 * `src/prosody.rs`, `src/lang.rs`, `src/group.rs`, `src/mstts/express.rs`)
 * can hold an `Element`, so their types are declared together with `Element`
 * (`src/element.rs`).  Each `serialize_xml` is the command list it hands to the
 * writer: `Serialize` is the `el!` dispatch, `SerializeElements` is
 * `serialize_elements` of `src/util.rs`.
 */
module Elements {
  import opened Wrappers
  import opened Units
  import opened Errors
  import opened Options
  import Xml

  type Cmd = Xml.Cmd

  // ---------------------------------------------------------------- types

  /** Plain text, escaped when written. */
  datatype Text = Text(text: string)

  /** Raw markup written as is; `name` and `restrictFlavor` only label it. */
  datatype Meta = Meta(raw: string, name: Option<string>, restrictFlavor: seq<Flavor>)

  datatype AudioRepeat = Times(times: F32) | Duration(duration: TimeDesignation)

  datatype Audio = Audio(
    src: string,
    desc: Option<string>,
    alternate: seq<Element>,
    clipBegin: Option<TimeDesignation>,
    clipEnd: Option<TimeDesignation>,
    repeat: Option<AudioRepeat>,
    soundLevel: Option<Decibels>,
    speed: Option<F32>)

  datatype VoiceGender = Unspecified | Neutral | Female | Male

  datatype VoiceConfig = VoiceConfig(
    gender: Option<VoiceGender>,
    age: Option<Xml.u8>,
    names: Option<seq<string>>,
    variant: Option<string>,
    languages: Option<seq<string>>)

  datatype Voice = Voice(children: seq<Element>, attrs: seq<(string, string)>, config: VoiceConfig)

  datatype BreakStrength = None | ExtraWeak | Weak | Medium | Strong | ExtraStrong

  datatype Break = Strength(strength: BreakStrength) | Time(time: TimeDesignation)

  datatype EmphasisLevel = Reduced | None | Moderate | Strong

  datatype Emphasis = Emphasis(level: EmphasisLevel, children: seq<Element>)

  datatype Mark = Mark(name: string)

  datatype ProsodyPitch = Lower | Low | Medium | Default | High | Higher | Semitone(st: F32) | Hz(hz: F32)

  datatype ProsodyRate = Slower | Slow | Medium | Default | Fast | Faster | Rate(rate: F32)

  datatype ProsodyVolume = Silent | Softer | Soft | Medium | Default | Loud | Louder | Db(db: Decibels)

  /** Points of (time as a fraction of the duration, pitch). */
  datatype ProsodyContour = ProsodyContour(points: seq<(F32, ProsodyPitch)>)

  datatype ProsodyControl = ProsodyControl(
    pitch: Option<ProsodyPitch>,
    contour: Option<ProsodyContour>,
    range: Option<ProsodyPitch>,
    rate: Option<ProsodyRate>,
    duration: Option<TimeDesignation>,
    volume: Option<ProsodyVolume>)

  datatype Prosody = Prosody(control: ProsodyControl, children: seq<Element>)

  datatype LangFailure = ChangeVoice | IgnoreText | IgnoreLang | ProcessorChoice

  datatype Lang = Lang(language: string, failureBehavior: Option<LangFailure>, children: seq<Element>)

  datatype Group = Group(children: seq<Element>)

  /** A speaking style name and its degree. */
  datatype Expression = Expression(style: string, degree: F32)

  datatype Express = Express(expression: Expression, children: seq<Element>)

  /** Elements only the Microsoft service understands (`mstts::Element`). */
  datatype MsttsElement = Express(express: Express)

  datatype CustomElement = CustomElement(tag: string, attrs: seq<(string, string)>, children: seq<Element>)

  datatype Element =
    | Text(Text)
    | Audio(Audio)
    | Voice(Voice)
    | Meta(Meta)
    | Break(Break)
    | Emphasis(Emphasis)
    | Mark(Mark)
    | FlavorMSTTS(MsttsElement)
    | Custom(CustomElement)
    | Prosody(Prosody)
    | Lang(Lang)
    | Group(Group)

  /** `From<&str> for Element`: a string becomes a text element. */
  function FromStr(s: string): Element
  {
    Element.Text(Text.Text(s))
  }

  // ---------------------------------------------------------------- keyword texts

  function GenderText(g: VoiceGender): string
  {
    match g
    case Unspecified => ""
    case Neutral => "neutral"
    case Female => "female"
    case Male => "male"
  }

  function StrengthText(s: BreakStrength): string
  {
    match s
    case None => "none"
    case ExtraWeak => "x-weak"
    case Weak => "weak"
    case Medium => "medium"
    case Strong => "strong"
    case ExtraStrong => "x-strong"
  }

  function LevelText(l: EmphasisLevel): string
  {
    match l
    case Reduced => "reduced"
    case None => "none"
    case Moderate => "moderate"
    case Strong => "strong"
  }

  function PitchText(p: ProsodyPitch): string
  {
    match p
    case Lower => "x-low"
    case Low => "low"
    case Medium => "medium"
    case Default => "default"
    case High => "high"
    case Higher => "x-high"
    case Semitone(v) => ShowSigned(v) + "st"
    case Hz(v) => ShowSigned(v) + "Hz"
  }

  /** Rate display; a numeric rate is clamped at zero before it is written. */
  function RateText(r: ProsodyRate): string
  {
    match r
    case Slower => "x-slow"
    case Slow => "slow"
    case Medium => "medium"
    case Default => "default"
    case Fast => "fast"
    case Faster => "x-fast"
    case Rate(v) => SpeedText(Max0(v))
  }

  function VolumeText(v: ProsodyVolume): string
  {
    match v
    case Silent => "silent"
    case Softer => "x-soft"
    case Soft => "soft"
    case Medium => "medium"
    case Default => "default"
    case Loud => "loud"
    case Louder => "x-loud"
    case Db(d) => DecibelsText(d)
  }

  function LangFailureText(f: LangFailure): string
  {
    match f
    case ChangeVoice => "changevoice"
    case IgnoreText => "ignoretext"
    case IgnoreLang => "ignorelang"
    case ProcessorChoice => "processorchoice"
  }

  /** `[T]::join(sep)` */
  function Join(parts: seq<string>, sep: string): string
  {
    if parts == [] then "" else if |parts| == 1 then parts[0] else parts[0] + sep + Join(parts[1..], sep)
  }

  // ---------------------------------------------------------------- attribute commands

  /** `attr_opt`: an attribute when the value is present. */
  function OptAttr(name: string, value: Option<Xml.AttrValue>): seq<Cmd>
  {
    if value.Some? then [Xml.Cmd.Attr(name, value.value)] else []
  }

  function EscapedOpt(s: Option<string>): Option<Xml.AttrValue>
  {
    if s.Some? then Some(Xml.Escaped(s.value)) else Option.None
  }

  function TimeOpt(t: Option<TimeDesignation>): Option<Xml.AttrValue>
  {
    if t.Some? then Some(Xml.Trusted(TimeText(t.value))) else Option.None
  }

  /** Name/value pairs written in order, values escaped. */
  function PairAttrs(attrs: seq<(string, string)>): (r: seq<Cmd>)
    ensures |r| == |attrs|
    ensures forall i :: 0 <= i < |attrs| ==> r[i] == Xml.Cmd.Attr(attrs[i].0, Xml.Escaped(attrs[i].1))
  {
    if attrs == [] then [] else [Xml.Cmd.Attr(attrs[0].0, Xml.Escaped(attrs[0].1))] + PairAttrs(attrs[1..])
  }

  function AudioAttrs(a: Audio): seq<Cmd>
  {
    [Xml.Cmd.Attr("src", Xml.Escaped(a.src))]
    + OptAttr("clipBegin", TimeOpt(a.clipBegin))
    + OptAttr("clipEnd", TimeOpt(a.clipEnd))
    + RepeatAttr(a.repeat)
    + OptAttr("soundLevel", if a.soundLevel.Some? then Some(Xml.Trusted(DecibelsText(a.soundLevel.value))) else Option.None)
    + OptAttr("speed", if a.speed.Some? then Some(Xml.Trusted(SpeedText(a.speed.value))) else Option.None)
  }

  function RepeatAttr(r: Option<AudioRepeat>): seq<Cmd>
  {
    match r
    case None => []
    case Some(Duration(d)) => [Xml.Cmd.Attr("repeatDur", Xml.Trusted(TimeText(d)))]
    case Some(Times(n)) => [Xml.Cmd.Attr("times", Xml.Trusted(Show(n)))]
  }

  function DescChild(desc: Option<string>): seq<Cmd>
  {
    if desc.Some? then [Xml.Cmd.Element("desc", [Xml.Cmd.Text(desc.value)])] else []
  }

  /** The `VoiceConfig` attributes: gender, age, name, variant, language. */
  function ConfigAttrs(c: VoiceConfig): seq<Cmd>
  {
    OptAttr("gender", if c.gender.Some? then Some(Xml.Trusted(GenderText(c.gender.value))) else Option.None)
    + OptAttr("age", if c.age.Some? then Some(Xml.Trusted(NatToString(c.age.value))) else Option.None)
    + OptAttr("name", if c.names.Some? then Some(Xml.Escaped(Join(c.names.value, " "))) else Option.None)
    + OptAttr("variant", EscapedOpt(c.variant))
    + OptAttr("language", if c.languages.Some? then Some(Xml.Escaped(Join(c.languages.value, " "))) else Option.None)
  }

  function BreakAttr(b: Break): Cmd
  {
    match b
    case Strength(s) => Xml.Cmd.Attr("strength", Xml.Escaped(StrengthText(s)))
    case Time(t) => Xml.Cmd.Attr("time", Xml.Trusted(TimeText(t)))
  }

  function ProsodyAttrs(c: ProsodyControl): seq<Cmd>
  {
    OptAttr("pitch", if c.pitch.Some? then Some(Xml.Trusted(PitchText(c.pitch.value))) else Option.None)
    + OptAttr("range", if c.range.Some? then Some(Xml.Trusted(PitchText(c.range.value))) else Option.None)
    + OptAttr("rate", if c.rate.Some? then Some(Xml.Trusted(RateText(c.rate.value))) else Option.None)
    + OptAttr("duration", TimeOpt(c.duration))
    + OptAttr("volume", if c.volume.Some? then Some(Xml.Trusted(VolumeText(c.volume.value))) else Option.None)
  }

  function LangAttrs(l: Lang): seq<Cmd>
  {
    [Xml.Cmd.Attr("xml:lang", Xml.Escaped(l.language))]
    + OptAttr("onlangfailure", if l.failureBehavior.Some? then Some(Xml.Escaped(LangFailureText(l.failureBehavior.value))) else Option.None)
  }

  const ExpressFlavorMessage := "`mstts::Express` is only supported in ACSS/MSTTS"

  /** The flavor check of `express-as`: refused unless checks are off or the flavor is Microsoft's. */
  predicate ExpressRefused(opts: SerializeOptions)
  {
    opts.performChecks && opts.flavor != MicrosoftAzureCognitiveSpeechServices
  }

  // ---------------------------------------------------------------- serializers

  /** The `el!` dispatch: each variant serializes as its inner element does. */
  function Serialize(e: Element, opts: SerializeOptions): seq<Cmd>
    decreases e
  {
    match e
    case Text(t) => [Xml.Cmd.Text(t.text)]
    case Meta(m) => [Xml.Cmd.Raw(m.raw)]
    case Audio(a) => SerializeAudio(a, opts)
    case Voice(v) => SerializeVoice(v, opts)
    case Break(b) => [Xml.Cmd.Element("break", [BreakAttr(b)])]
    case Emphasis(x) => [Xml.Cmd.Element("emphasis", [Xml.Cmd.Attr("level", Xml.Escaped(LevelText(x.level)))])]
    case Mark(m) => SerializeMark(m, opts)
    case FlavorMSTTS(m) => SerializeMstts(m, opts)
    case Custom(c) => SerializeCustom(c, opts)
    case Prosody(p) => SerializeProsody(p, opts)
    case Lang(l) => SerializeLang(l, opts)
    case Group(g) => SerializeGroup(g, opts)
  }

  function SerializeAudio(a: Audio, opts: SerializeOptions): seq<Cmd>
    decreases a
  {
    [Xml.Cmd.Element("audio", AudioAttrs(a) + DescChild(a.desc) + SerializeElements(a.alternate, opts))]
  }

  function SerializeVoice(v: Voice, opts: SerializeOptions): seq<Cmd>
    decreases v
  {
    [Xml.Cmd.Element("voice", ConfigAttrs(v.config) + PairAttrs(v.attrs) + SerializeElements(v.children, opts))]
  }

  function SerializeMark(m: Mark, opts: SerializeOptions): seq<Cmd>
  {
    if opts.flavor == MicrosoftAzureCognitiveSpeechServices
    then [Xml.Cmd.Element("bookmark", [Xml.Cmd.Attr("mark", Xml.Escaped(m.name))])]
    else [Xml.Cmd.Element("mark", [Xml.Cmd.Attr("name", Xml.Escaped(m.name))])]
  }

  function SerializeMstts(m: MsttsElement, opts: SerializeOptions): seq<Cmd>
    decreases m
  {
    match m
    case Express(x) => SerializeExpress(x, opts)
  }

  function SerializeExpress(x: Express, opts: SerializeOptions): seq<Cmd>
    decreases x
  {
    if ExpressRefused(opts) then [Xml.Cmd.Fail(Error.Generic(ExpressFlavorMessage))]
    else [Xml.Cmd.Element("mstts:express-as",
      [Xml.Cmd.Attr("style", Xml.Escaped(x.expression.style)), Xml.Cmd.Attr("styledegree", Xml.Trusted(Show(x.expression.degree)))]
      + SerializeElements(x.children, opts))]
  }

  function SerializeCustom(c: CustomElement, opts: SerializeOptions): seq<Cmd>
    decreases c
  {
    [Xml.Cmd.Element(c.tag, PairAttrs(c.attrs) + SerializeElements(c.children, opts))]
  }

  function SerializeProsody(p: Prosody, opts: SerializeOptions): seq<Cmd>
    decreases p
  {
    [Xml.Cmd.Element("prosody", ProsodyAttrs(p.control) + SerializeElements(p.children, opts))]
  }

  function SerializeLang(l: Lang, opts: SerializeOptions): seq<Cmd>
    decreases l
  {
    [Xml.Cmd.Element("lang", LangAttrs(l) + SerializeElements(l.children, opts))]
  }

  /** A group has no tag: its children one after the other, with no joining space. */
  function SerializeGroup(g: Group, opts: SerializeOptions): seq<Cmd>
    decreases g
  {
    SerializeEach(g.children, opts)
  }

  function SerializeEach(els: seq<Element>, opts: SerializeOptions): seq<Cmd>
    decreases els
  {
    if els == [] then [] else Serialize(els[0], opts) + SerializeEach(els[1..], opts)
  }

  /** Whether `serialize_elements` writes a space after the `i`th element:
      it and the next one are both text (the writer skips it when pretty). */
  predicate JoinAfter(els: seq<Element>, i: nat)
  {
    i + 1 < |els| && els[i].Text? && els[i + 1].Text?
  }

  function Joiner(els: seq<Element>, i: nat): seq<Cmd>
  {
    if JoinAfter(els, i) then [Xml.Cmd.TextJoin] else []
  }

  /** `serialize_elements`: each element in order, a `TextJoin` between two texts. */
  function SerializeElements(els: seq<Element>, opts: SerializeOptions): seq<Cmd>
    decreases els
  {
    if els == [] then [] else Serialize(els[0], opts) + Joiner(els, 0) + SerializeElements(els[1..], opts)
  }
}
