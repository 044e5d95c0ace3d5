/** A change of voice (`src/voice.rs`): a `voice` element whose attributes come
    from a `VoiceConfig` and from extra name/value pairs, followed by children. */
module VoiceElement {
  import opened Wrappers
  import opened Options
  import Errors
  import E = Elements
  import Xml
  import Escaping
  import opened XmlTheory
  import opened Serialization
  import CustomElements
  import Units

  /** `VoiceConfig::default()`: nothing set. */
  const DefaultConfig := E.VoiceConfig(Option.None, Option.None, Option.None, Option.None, Option.None)

  /** `VoiceConfig::named` and `From<S: Into<Cow<str>>>`: one name, nothing else. */
  function Named(name: string): E.VoiceConfig
  {
    DefaultConfig.(names := Some([name]))
  }

  /** `VoiceGender`'s display text, read back; `Unspecified` is the empty text. */
  function GenderFromText(s: string): E.VoiceGender
  {
    match s
    case "neutral" => E.VoiceGender.Neutral
    case "female" => E.VoiceGender.Female
    case "male" => E.VoiceGender.Male
    case _ => E.VoiceGender.Unspecified
  }

  lemma GenderKeywords(g: E.VoiceGender)
    ensures GenderFromText(E.GenderText(g)) == g
    ensures g == E.VoiceGender.Unspecified <==> E.GenderText(g) == ""
  {
  }

  class Voice {
    var children: seq<E.Element>
    var attrs: seq<(string, string)>
    var config: E.VoiceConfig

    /** `Voice::new` and `voice()`: the configuration and children, no extra attributes. */
    constructor (config: E.VoiceConfig, elements: seq<E.Element>)
      ensures this.config == config && children == elements && attrs == []
    {
      this.config := config;
      children := elements;
      attrs := [];
    }

    /** `set_config` (and `with_config`, which returns the element). */
    method SetConfig(config: E.VoiceConfig)
      modifies this
      ensures this.config == config
      ensures children == old(children) && attrs == old(attrs)
    {
      this.config := config;
    }

    method Push(e: E.Element)
      modifies this
      ensures children == old(children) + [e]
      ensures attrs == old(attrs) && config == old(config)
    {
      children := children + [e];
    }

    method Extend(es: seq<E.Element>)
      modifies this
      ensures children == old(children) + es
      ensures attrs == old(attrs) && config == old(config)
    {
      children := children + es;
    }

    /** `with_mstts_effect` stores an extra attribute through this. */
    method PushAttr(name: string, value: string)
      modifies this
      ensures attrs == old(attrs) + [(name, value)]
      ensures children == old(children) && config == old(config)
    {
      attrs := attrs + [(name, value)];
    }

    /** `with_mstts_viseme` stores a first child through this. */
    method InsertFirst(e: E.Element)
      modifies this
      ensures children == [e] + old(children)
      ensures attrs == old(attrs) && config == old(config)
    {
      children := [e] + children;
    }

    function Value(): E.Voice
      reads this
    {
      E.Voice.Voice(children, attrs, config)
    }

    /** `serialize_xml`: the configuration's attributes, the extra attributes,
        then the children. */
    method SerializeXml(w: Xml.XmlWriter, opts: SerializeOptions) returns (r: Result<(), Errors.Error>)
      modifies w
      ensures Xml.Outcome(r, w.Snapshot()) == Xml.Exec(old(w.Snapshot()), E.SerializeVoice(Value(), opts))
    {
      ghost var before := w.Snapshot();
      var body := E.ConfigAttrs(config) + E.PairAttrs(attrs) + E.SerializeElements(children, opts);
      r := w.Element("voice", body);
      ExecSingle(before, Xml.Cmd.Element("voice", body));
    }
  }

  // ---------------------------------------------------------------- the configuration's attributes

  /** The names of the configuration's attributes, in the order they are written. */
  function ConfigNames(c: E.VoiceConfig): seq<string>
  {
    (if c.gender.Some? then ["gender"] else [])
    + (if c.age.Some? then ["age"] else [])
    + (if c.names.Some? then ["name"] else [])
    + (if c.variant.Some? then ["variant"] else [])
    + (if c.languages.Some? then ["language"] else [])
  }

  /** Gender, age, name, variant, language: each one written only when set. */
  lemma ConfigAttrOrder(c: E.VoiceConfig)
    ensures AttrNames(E.ConfigAttrs(c)) == ConfigNames(c)
  {
    var g := E.OptAttr("gender", if c.gender.Some? then Some(Xml.Trusted(E.GenderText(c.gender.value))) else Option.None);
    var a := E.OptAttr("age", if c.age.Some? then Some(Xml.Trusted(Units.NatToString(c.age.value))) else Option.None);
    var n := E.OptAttr("name", if c.names.Some? then Some(Xml.Escaped(E.Join(c.names.value, " "))) else Option.None);
    var v := E.OptAttr("variant", E.EscapedOpt(c.variant));
    var l := E.OptAttr("language", if c.languages.Some? then Some(Xml.Escaped(E.Join(c.languages.value, " "))) else Option.None);
    OptAttrNames("gender", if c.gender.Some? then Some(Xml.Trusted(E.GenderText(c.gender.value))) else Option.None);
    OptAttrNames("age", if c.age.Some? then Some(Xml.Trusted(Units.NatToString(c.age.value))) else Option.None);
    OptAttrNames("name", if c.names.Some? then Some(Xml.Escaped(E.Join(c.names.value, " "))) else Option.None);
    OptAttrNames("variant", E.EscapedOpt(c.variant));
    OptAttrNames("language", if c.languages.Some? then Some(Xml.Escaped(E.Join(c.languages.value, " "))) else Option.None);
    AttrNamesAppend(g, a);
    AttrNamesAppend(g + a, n);
    AttrNamesAppend(g + a + n, v);
    AttrNamesAppend(g + a + n + v, l);
  }

  /** A configuration made from a name writes that name and nothing else. */
  lemma NamedConfigAttrs(name: string)
    ensures E.ConfigAttrs(Named(name)) == [Xml.Cmd.Attr("name", Xml.Escaped(name))]
  {
    assert E.Join([name], " ") == name;
  }

  /** `str::split(' ')`: the pieces between single spaces. */
  function SplitOn(s: string, sep: char): (r: seq<string>)
    ensures |r| >= 1
    decreases |s|
  {
    if s == [] then [""]
    else
      var rest := SplitOn(s[1..], sep);
      if s[0] == sep then [""] + rest else [[s[0]] + rest[0]] + rest[1..]
  }

  predicate NoSep(p: string, sep: char)
  {
    forall i :: 0 <= i < |p| ==> p[i] != sep
  }

  lemma {:induction false} SplitAfterPiece(p: string, t: string, sep: char)
    requires NoSep(p, sep)
    ensures SplitOn(p + t, sep) == [p + SplitOn(t, sep)[0]] + SplitOn(t, sep)[1..]
    decreases |p|
  {
    if p != [] {
      assert (p + t)[1..] == p[1..] + t;
      assert (p + t)[0] == p[0];
      SplitAfterPiece(p[1..], t, sep);
      assert [p[0]] + (p[1..] + SplitOn(t, sep)[0]) == p + SplitOn(t, sep)[0];
    } else {
      var r := SplitOn(t, sep);
      assert p + t == t && p + r[0] == r[0];
      assert [r[0]] + r[1..] == r;
    }
  }

  /** Names and languages are written joined by single spaces; as long as no
      name holds a space, splitting the attribute value at the spaces gives the
      list back. */
  lemma {:induction false} JoinSplit(parts: seq<string>)
    requires parts != [] && forall i :: 0 <= i < |parts| ==> NoSep(parts[i], ' ')
    ensures SplitOn(E.Join(parts, " "), ' ') == parts
    decreases |parts|
  {
    if |parts| == 1 {
      SplitAfterPiece(parts[0], "", ' ');
      assert parts[0] + "" == parts[0];
    } else {
      var rest := E.Join(parts[1..], " ");
      assert E.Join(parts, " ") == parts[0] + (" " + rest);
      SplitAfterPiece(parts[0], " " + rest, ' ');
      assert (" " + rest)[0] == ' ' && (" " + rest)[1..] == rest;
      JoinSplit(parts[1..]);
      assert parts[0] + "" == parts[0];
      assert parts == [parts[0]] + parts[1..];
    }
  }

  // ---------------------------------------------------------------- output

  lemma VoiceAttrsText(v: E.Voice)
    ensures AttrsText(E.ConfigAttrs(v.config) + E.PairAttrs(v.attrs)) == AttrsText(E.ConfigAttrs(v.config)) + CustomElements.PairsText(v.attrs)
  {
    AttrsTextAppend(E.ConfigAttrs(v.config), E.PairAttrs(v.attrs));
    CustomElements.PairAttrsText(v.attrs);
  }

  /** A voice succeeds exactly when none of its children is refused; it then
      writes the configuration's attributes, then the extra attributes in the
      order they were added, then its children. */
  lemma VoiceWritten(w: Xml.WriterState, v: E.Voice, opts: SerializeOptions)
    requires w.indent + 1 + HeightSeq(E.SerializeElements(v.children, opts)) <= 255
    ensures var o := Xml.Exec(w, E.SerializeVoice(v, opts));
      (o.result.Ok? <==> CleanSeq(v.children, opts)) &&
      (CleanSeq(v.children, opts) ==> o.after == Xml.WriteChild(w,
        "<voice" + AttrsText(E.ConfigAttrs(v.config)) + CustomElements.PairsText(v.attrs)
        + ChildrenPart(E.SerializeElements(v.children, opts), w.pretty, w.indent, "voice")))
  {
    var attrs := E.ConfigAttrs(v.config) + E.PairAttrs(v.attrs);
    assert E.Serialize(E.Element.Voice(v), opts) == E.SerializeVoice(v, opts);
    VoiceAttrsAreAttrs(v.config, v.attrs);
    if CleanSeq(v.children, opts) {
      SerializeElementsWellFormed(v.children, opts, false);
    }
    TaggedOutput(w, E.Element.Voice(v), opts, "voice", attrs, E.SerializeElements(v.children, opts));
    VoiceOpening(v);
  }

  lemma VoiceOpening(v: E.Voice)
    ensures "<" + "voice" + AttrsText(E.ConfigAttrs(v.config) + E.PairAttrs(v.attrs)) ==
      "<voice" + AttrsText(E.ConfigAttrs(v.config)) + CustomElements.PairsText(v.attrs)
  {
    VoiceAttrsText(v);
    assert "<" + "voice" == "<voice";
    Xml.Assoc("<voice", AttrsText(E.ConfigAttrs(v.config)), CustomElements.PairsText(v.attrs));
  }
}
