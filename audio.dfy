/**
 * The `audio` element (`src/audio.rs`): a recorded sound with optional
 * clipping, repetition, volume and speed, a description, and alternate
 * content for when the sound cannot be played.
 */
module AudioElement {
  import opened Wrappers
  import opened Options
  import Errors
  import E = Elements
  import Xml
  import Escaping
  import Units
  import opened XmlTheory
  import opened Serialization

  class Audio {
    var src: string
    var desc: Option<string>
    var alternate: seq<E.Element>
    var clipBegin: Option<Units.TimeDesignation>
    var clipEnd: Option<Units.TimeDesignation>
    var repeat: Option<E.AudioRepeat>
    var soundLevel: Option<Units.Decibels>
    var speed: Option<Units.F32>

    function Value(): E.Audio
      reads this
    {
      E.Audio.Audio(src, desc, alternate, clipBegin, clipEnd, repeat, soundLevel, speed)
    }

    /** `Audio::new` and `audio()`: the source, everything else unset. */
    constructor (src: string)
      ensures Value() == E.Audio.Audio(src, Option.None, [], Option.None, Option.None, Option.None, Option.None, Option.None)
    {
      this.src := src;
      desc := Option.None;
      alternate := [];
      clipBegin := Option.None;
      clipEnd := Option.None;
      repeat := Option.None;
      soundLevel := Option.None;
      speed := Option.None;
    }

    method SetSrc(src: string)
      modifies this
      ensures Value() == old(Value()).(src := src)
    {
      this.src := src;
    }

    /** `with_alternate`: the elements are added after the existing alternates. */
    method WithAlternate(es: seq<E.Element>)
      modifies this
      ensures Value() == old(Value()).(alternate := old(alternate) + es)
    {
      alternate := alternate + es;
    }

    /** `set_desc` (and `with_desc`). */
    method SetDesc(d: string)
      modifies this
      ensures Value() == old(Value()).(desc := Some(d))
    {
      desc := Some(d);
    }

    /** `take_desc`: returns the description and leaves none. */
    method TakeDesc() returns (d: Option<string>)
      modifies this
      ensures d == old(desc)
      ensures Value() == old(Value()).(desc := Option.None)
    {
      d := desc;
      desc := Option.None;
    }

    /** `with_clip`: both ends at once. */
    method WithClip(begin: Units.TimeDesignation, end: Units.TimeDesignation)
      modifies this
      ensures Value() == old(Value()).(clipBegin := Some(begin), clipEnd := Some(end))
    {
      clipBegin := Some(begin);
      clipEnd := Some(end);
    }

    /** `set_clip_begin` (and `with_clip_begin`). */
    method SetClipBegin(t: Units.TimeDesignation)
      modifies this
      ensures Value() == old(Value()).(clipBegin := Some(t))
    {
      clipBegin := Some(t);
    }

    method TakeClipBegin() returns (t: Option<Units.TimeDesignation>)
      modifies this
      ensures t == old(clipBegin)
      ensures Value() == old(Value()).(clipBegin := Option.None)
    {
      t := clipBegin;
      clipBegin := Option.None;
    }

    /** `set_clip_end` (and `with_clip_end`). */
    method SetClipEnd(t: Units.TimeDesignation)
      modifies this
      ensures Value() == old(Value()).(clipEnd := Some(t))
    {
      clipEnd := Some(t);
    }

    method TakeClipEnd() returns (t: Option<Units.TimeDesignation>)
      modifies this
      ensures t == old(clipEnd)
      ensures Value() == old(Value()).(clipEnd := Option.None)
    {
      t := clipEnd;
      clipEnd := Option.None;
    }

    /** `set_repeat` (and `with_repeat`): a count or a duration, never both. */
    method SetRepeat(r: E.AudioRepeat)
      modifies this
      ensures Value() == old(Value()).(repeat := Some(r))
    {
      repeat := Some(r);
    }

    method TakeRepeat() returns (r: Option<E.AudioRepeat>)
      modifies this
      ensures r == old(repeat)
      ensures Value() == old(Value()).(repeat := Option.None)
    {
      r := repeat;
      repeat := Option.None;
    }

    /** `set_sound_level` (and `with_sound_level`). */
    method SetSoundLevel(db: Units.Decibels)
      modifies this
      ensures Value() == old(Value()).(soundLevel := Some(db))
    {
      soundLevel := Some(db);
    }

    method TakeSoundLevel() returns (db: Option<Units.Decibels>)
      modifies this
      ensures db == old(soundLevel)
      ensures Value() == old(Value()).(soundLevel := Option.None)
    {
      db := soundLevel;
      soundLevel := Option.None;
    }

    /** `set_speed` (and `with_speed`): a factor, 1 being the recorded speed. */
    method SetSpeed(f: Units.F32)
      modifies this
      ensures Value() == old(Value()).(speed := Some(f))
    {
      speed := Some(f);
    }

    method TakeSpeed() returns (f: Option<Units.F32>)
      modifies this
      ensures f == old(speed)
      ensures Value() == old(Value()).(speed := Option.None)
    {
      f := speed;
      speed := Option.None;
    }

    /** `serialize_xml`: the attributes, then the description, then the alternates. */
    method SerializeXml(w: Xml.XmlWriter, opts: SerializeOptions) returns (r: Result<(), Errors.Error>)
      modifies w
      ensures Xml.Outcome(r, w.Snapshot()) == Xml.Exec(old(w.Snapshot()), E.SerializeAudio(Value(), opts))
    {
      ghost var before := w.Snapshot();
      var body := E.AudioAttrs(Value()) + E.DescChild(desc) + E.SerializeElements(alternate, opts);
      r := w.Element("audio", body);
      ExecSingle(before, Xml.Cmd.Element("audio", body));
    }
  }

  // ---------------------------------------------------------------- attributes

  /** The attribute a repetition is written as: a duration as `repeatDur`, a count as `times`. */
  function RepeatNames(r: Option<E.AudioRepeat>): seq<string>
  {
    match r
    case None => []
    case Some(Duration(_)) => ["repeatDur"]
    case Some(Times(_)) => ["times"]
  }

  /** The names of the attributes written for an audio element, in order. */
  function AudioNames(a: E.Audio): seq<string>
  {
    ["src"]
    + (if a.clipBegin.Some? then ["clipBegin"] else [])
    + (if a.clipEnd.Some? then ["clipEnd"] else [])
    + RepeatNames(a.repeat)
    + (if a.soundLevel.Some? then ["soundLevel"] else [])
    + (if a.speed.Some? then ["speed"] else [])
  }

  /** The source always comes first; each other attribute is written only
      when set, in the order clip begin, clip end, repetition, sound level, speed. */
  lemma AudioAttrOrder(a: E.Audio)
    ensures AttrNames(E.AudioAttrs(a)) == AudioNames(a)
    ensures |AudioNames(a)| >= 1 && AudioNames(a)[0] == "src"
  {
    var s := [Xml.Cmd.Attr("src", Xml.Escaped(a.src))];
    var cb := E.OptAttr("clipBegin", E.TimeOpt(a.clipBegin));
    var ce := E.OptAttr("clipEnd", E.TimeOpt(a.clipEnd));
    var rp := E.RepeatAttr(a.repeat);
    var sl := E.OptAttr("soundLevel", if a.soundLevel.Some? then Some(Xml.Trusted(Units.DecibelsText(a.soundLevel.value))) else Option.None);
    var sp := E.OptAttr("speed", if a.speed.Some? then Some(Xml.Trusted(Units.SpeedText(a.speed.value))) else Option.None);
    OneAttrName(s[0]);
    OptAttrNames("clipBegin", E.TimeOpt(a.clipBegin));
    OptAttrNames("clipEnd", E.TimeOpt(a.clipEnd));
    RepeatAttrName(a.repeat);
    OptAttrNames("soundLevel", if a.soundLevel.Some? then Some(Xml.Trusted(Units.DecibelsText(a.soundLevel.value))) else Option.None);
    OptAttrNames("speed", if a.speed.Some? then Some(Xml.Trusted(Units.SpeedText(a.speed.value))) else Option.None);
    AttrNamesAppend(s, cb);
    AttrNamesAppend(s + cb, ce);
    AttrNamesAppend(s + cb + ce, rp);
    AttrNamesAppend(s + cb + ce + rp, sl);
    AttrNamesAppend(s + cb + ce + rp + sl, sp);
  }

  lemma RepeatAttrName(r: Option<E.AudioRepeat>)
    ensures AttrNames(E.RepeatAttr(r)) == RepeatNames(r)
  {
    if r.Some? {
      OneAttrName(E.RepeatAttr(r)[0]);
    }
  }

  /** A repetition reads back from its attribute: a duration through the time
      parser (a negative one is refused there), a count as a number. */
  lemma RepeatReadsBack(r: E.AudioRepeat)
    ensures r.Duration? && !r.duration.millis.negative ==>
      E.RepeatAttr(Some(r)) == [Xml.Cmd.Attr("repeatDur", Xml.Trusted(Units.TimeText(r.duration)))] &&
      Units.TimeFromStr(Units.TimeText(r.duration)) == Ok(Units.TimeDesignation(Units.Normalize(r.duration.millis)))
    ensures r.Times? ==>
      E.RepeatAttr(Some(r)) == [Xml.Cmd.Attr("times", Xml.Trusted(Units.Show(r.times)))] &&
      Units.ParseF32(Units.Show(r.times)) == Some(Units.Normalize(r.times))
  {
    match r
    case Duration(d) => Units.TimeTextRoundTrip(d);
    case Times(n) => Units.ShowRoundTrip(n);
  }

  // ---------------------------------------------------------------- output

  /** The description is written as a `desc` element holding the escaped text
      one level deeper. */
  lemma DescRendered(d: string, pretty: bool, depth: nat)
    ensures RenderedChild(Xml.Cmd.Element("desc", [Xml.Cmd.Text(d)]), pretty, depth) ==
      Xml.LineBreak(pretty, depth) + ("<desc>" + (Xml.LineBreak(pretty, depth + 1) + Escaping.Escape(d)) + Xml.EndTag(pretty, depth, "desc"))
  {
    var t := [Xml.Cmd.Text(d)];
    var el := Xml.Cmd.Element("desc", t);
    var inner := Xml.LineBreak(pretty, depth + 1) + Escaping.Escape(d);
    var end := Xml.EndTag(pretty, depth, "desc");
    DescText(d, pretty, depth + 1);
    DescBody(t, inner, pretty, depth);
    assert Rendered(el, pretty, depth) == "<desc" + (">" + inner + end);
    assert "<desc" + ">" == "<desc>";
    Xml.Assoc("<desc", ">" + inner, end);
    Xml.Assoc("<desc", ">", inner);
  }

  lemma DescBody(t: seq<Xml.Cmd>, inner: string, pretty: bool, depth: nat)
    requires t != [] && !t[0].Attr? && RenderedChildren(t, pretty, depth + 1) == inner
    ensures RenderedBody(t, pretty, depth, "desc") == ">" + inner + Xml.EndTag(pretty, depth, "desc")
  {
  }

  lemma DescText(d: string, pretty: bool, depth: nat)
    ensures RenderedChildren([Xml.Cmd.Text(d)], pretty, depth) == Xml.LineBreak(pretty, depth) + Escaping.Escape(d)
  {
    var t := [Xml.Cmd.Text(d)];
    assert t[1..] == [];
    assert Rendered(t[0], pretty, depth) == Escaping.Escape(d);
    assert RenderedChild(t[0], pretty, depth) == Xml.LineBreak(pretty, depth) + Escaping.Escape(d);
    assert RenderedChildren(t[1..], pretty, depth) == "";
    assert RenderedChildren(t, pretty, depth) == Xml.LineBreak(pretty, depth) + Escaping.Escape(d) + "";
  }

  lemma DescWellFormed(a: E.Audio, opts: SerializeOptions)
    requires CleanSeq(a.alternate, opts)
    ensures WellFormedChildren(E.DescChild(a.desc) + E.SerializeElements(a.alternate, opts), false)
  {
    SerializeElementsWellFormed(a.alternate, opts, false);
    if a.desc.Some? {
      SingleChild(Xml.Cmd.Text(a.desc.value), false);
      ElementWellFormed("desc", [], [Xml.Cmd.Text(a.desc.value)], false);
      assert [] + [Xml.Cmd.Text(a.desc.value)] == [Xml.Cmd.Text(a.desc.value)];
    }
    ChildrenAppend(E.DescChild(a.desc), E.SerializeElements(a.alternate, opts), false);
  }

  /** An audio element succeeds exactly when none of its alternates is refused;
      it then writes its attributes, then the description (if any) before the
      alternates, and closes itself when it has neither. */
  lemma AudioWritten(w: Xml.WriterState, a: E.Audio, opts: SerializeOptions)
    requires w.indent + 1 + HeightSeq(E.DescChild(a.desc) + E.SerializeElements(a.alternate, opts)) <= 255
    ensures var o := Xml.Exec(w, E.SerializeAudio(a, opts));
      (o.result.Ok? <==> CleanSeq(a.alternate, opts)) &&
      (CleanSeq(a.alternate, opts) ==> o.after == Xml.WriteChild(w,
        "<audio" + AttrsText(E.AudioAttrs(a))
        + ChildrenPart(E.DescChild(a.desc) + E.SerializeElements(a.alternate, opts), w.pretty, w.indent, "audio")))
  {
    var e := E.Element.Audio(a);
    var cs := E.DescChild(a.desc) + E.SerializeElements(a.alternate, opts);
    assert E.Serialize(e, opts) == E.SerializeAudio(a, opts);
    assert E.AudioAttrs(a) + cs == E.AudioAttrs(a) + E.DescChild(a.desc) + E.SerializeElements(a.alternate, opts);
    AudioAttrsAreAttrs(a);
    if CleanSeq(a.alternate, opts) {
      DescWellFormed(a, opts);
    }
    TaggedOutput(w, e, opts, "audio", E.AudioAttrs(a), cs);
    assert "<" + "audio" == "<audio";
  }

  /** Without description and alternates, an audio element is one self-closing tag. */
  lemma BareAudioSelfCloses(w: Xml.WriterState, a: E.Audio, opts: SerializeOptions)
    requires a.desc.None? && a.alternate == [] && w.indent < 255
    ensures Xml.Exec(w, E.SerializeAudio(a, opts)) ==
      Xml.Outcome(Ok(()), Xml.WriteChild(w, "<audio" + AttrsText(E.AudioAttrs(a)) + Xml.SelfClose(w.pretty)))
  {
    assert E.DescChild(a.desc) + E.SerializeElements(a.alternate, opts) == [];
    AudioWritten(w, a, opts);
  }

  /** With a description, the children start with it, before any alternate. */
  lemma DescBeforeAlternates(a: E.Audio, opts: SerializeOptions, pretty: bool, depth: nat)
    requires a.desc.Some?
    ensures RenderedChildren(E.DescChild(a.desc) + E.SerializeElements(a.alternate, opts), pretty, depth) ==
      RenderedChild(Xml.Cmd.Element("desc", [Xml.Cmd.Text(a.desc.value)]), pretty, depth)
      + RenderedChildren(E.SerializeElements(a.alternate, opts), pretty, depth)
  {
    var cs := E.DescChild(a.desc) + E.SerializeElements(a.alternate, opts);
    assert cs[0] == Xml.Cmd.Element("desc", [Xml.Cmd.Text(a.desc.value)]);
    assert cs[1..] == E.SerializeElements(a.alternate, opts);
  }
}
