/**
 * The `prosody` element (`src/prosody.rs`): pitch, contour, range, rate,
 * duration and volume controls over a run of children.
 */
module ProsodyElement {
  import opened Wrappers
  import opened Options
  import Errors
  import E = Elements
  import Xml
  import Escaping
  import Units
  import opened XmlTheory
  import opened Serialization

  // ---------------------------------------------------------------- displays read back

  /** Numbers are displayed with an explicit sign; keywords start with a letter. */
  predicate Signed(s: string)
  {
    |s| > 0 && (s[0] == '+' || s[0] == '-')
  }

  /** Reads a pitch display: a signed number of semitones or hertz, or a keyword. */
  function PitchFromText(s: string): Option<E.ProsodyPitch>
  {
    if !Signed(s) then PitchKeyword(s)
    else if Units.EndsWith(s, "st") && Units.ParseF32(s[..|s| - 2]).Some? then Some(E.ProsodyPitch.Semitone(Units.ParseF32(s[..|s| - 2]).value))
    else if Units.EndsWith(s, "Hz") && Units.ParseF32(s[..|s| - 2]).Some? then Some(E.ProsodyPitch.Hz(Units.ParseF32(s[..|s| - 2]).value))
    else Option.None
  }

  function PitchKeyword(s: string): Option<E.ProsodyPitch>
  {
    match s
    case "x-low" => Some(E.ProsodyPitch.Lower)
    case "low" => Some(E.ProsodyPitch.Low)
    case "medium" => Some(E.ProsodyPitch.Medium)
    case "default" => Some(E.ProsodyPitch.Default)
    case "high" => Some(E.ProsodyPitch.High)
    case "x-high" => Some(E.ProsodyPitch.Higher)
    case _ => Option.None
  }

  /** A pitch with its number in shortest form. */
  function NormalPitch(p: E.ProsodyPitch): E.ProsodyPitch
  {
    match p
    case Semitone(v) => E.ProsodyPitch.Semitone(Units.Normalize(v))
    case Hz(v) => E.ProsodyPitch.Hz(Units.Normalize(v))
    case _ => p
  }

  /** Every pitch reads back from its display: a keyword as itself, a number
      with its sign and unit. */
  lemma PitchReadsBack(p: E.ProsodyPitch)
    ensures PitchFromText(E.PitchText(p)) == Some(NormalPitch(p))
  {
    match p
    case Semitone(v) => SemitoneReadsBack(v);
    case Hz(v) => HzReadsBack(v);
    case _ =>
  }

  lemma SemitoneReadsBack(v: Units.F32)
    ensures PitchFromText(Units.ShowSigned(v) + "st") == Some(E.ProsodyPitch.Semitone(Units.Normalize(v)))
  {
    NumberWithUnit(v, "st");
  }

  lemma HzReadsBack(v: Units.F32)
    ensures PitchFromText(Units.ShowSigned(v) + "Hz") == Some(E.ProsodyPitch.Hz(Units.Normalize(v)))
  {
    NumberWithUnit(v, "Hz");
    var s := Units.ShowSigned(v) + "Hz";
    assert s[|s| - 2..] == "Hz" != "st";
  }

  lemma NumberWithUnit(v: Units.F32, u: string)
    requires |u| == 2
    ensures var s := Units.ShowSigned(v) + u;
      Units.EndsWith(s, u) && s[..|s| - 2] == Units.ShowSigned(v) && Units.ParseF32(s[..|s| - 2]) == Some(Units.Normalize(v))
      && (s[0] == '+' || s[0] == '-')
  {
    var s := Units.ShowSigned(v) + u;
    assert s[..|s| - 2] == Units.ShowSigned(v);
    assert s[|s| - 2..] == u;
    Units.ShowSignedRoundTrip(v);
  }

  function RateFromKeyword(s: string): Option<E.ProsodyRate>
  {
    match s
    case "x-slow" => Some(E.ProsodyRate.Slower)
    case "slow" => Some(E.ProsodyRate.Slow)
    case "medium" => Some(E.ProsodyRate.Medium)
    case "default" => Some(E.ProsodyRate.Default)
    case "fast" => Some(E.ProsodyRate.Fast)
    case "x-fast" => Some(E.ProsodyRate.Faster)
    case _ => Option.None
  }

  /** Each rate keyword has its own display; a numeric rate is written as a
      never-negative percentage. */
  lemma RateReadsBack(r: E.ProsodyRate)
    ensures !r.Rate? ==> RateFromKeyword(E.RateText(r)) == Some(r)
    ensures r.Rate? ==> var s := E.RateText(r);
      Units.EndsWith(s, "%") && Units.ParseF32(s[..|s| - 1]) == Some(Units.Normalize(Units.Mul(Units.Max0(r.rate), 100)))
      && !Units.Normalize(Units.Mul(Units.Max0(r.rate), 100)).negative
  {
    if r.Rate? {
      Units.SpeedTextRoundTrip(Units.Max0(r.rate));
    }
  }

  /** `ProsodyRate::new`: a negative rate becomes 0. */
  function NewRate(rate: Units.F32): (r: E.ProsodyRate)
    ensures r.Rate? && !r.rate.negative
    ensures !rate.negative ==> r.rate == rate
  {
    E.ProsodyRate.Rate(Units.Max0(rate))
  }

  /** The display clamps again, which changes nothing for a rate built by `new`,
      and makes a negative rate built directly display as 0%. */
  lemma RateClampedTwice(rate: Units.F32)
    ensures E.RateText(NewRate(rate)) == E.RateText(E.ProsodyRate.Rate(rate))
    ensures rate.negative ==> E.RateText(E.ProsodyRate.Rate(rate)) == Units.SpeedText(Units.Zero)
  {
  }

  /** Reads a volume display: a decibel value, or a keyword. */
  function VolumeFromText(s: string): Option<E.ProsodyVolume>
  {
    if !Signed(s) then VolumeKeyword(s)
    else if Units.DecibelsFromStr(s).Ok? then Some(E.ProsodyVolume.Db(Units.DecibelsFromStr(s).value))
    else Option.None
  }

  function VolumeKeyword(s: string): Option<E.ProsodyVolume>
  {
    match s
    case "silent" => Some(E.ProsodyVolume.Silent)
    case "x-soft" => Some(E.ProsodyVolume.Softer)
    case "soft" => Some(E.ProsodyVolume.Soft)
    case "medium" => Some(E.ProsodyVolume.Medium)
    case "default" => Some(E.ProsodyVolume.Default)
    case "loud" => Some(E.ProsodyVolume.Loud)
    case "x-loud" => Some(E.ProsodyVolume.Louder)
    case _ => Option.None
  }

  /** Every volume reads back from its display; decibels through the decibel
      display, in shortest form. */
  lemma VolumeReadsBack(v: E.ProsodyVolume)
    ensures !v.Db? ==> VolumeFromText(E.VolumeText(v)) == Some(v)
    ensures v.Db? ==> VolumeFromText(E.VolumeText(v)) == Some(E.ProsodyVolume.Db(Units.Decibels(Units.Normalize(v.db.value))))
  {
    if v.Db? {
      Units.DecibelsTextRoundTrip(v.db);
      NumberWithUnit(v.db.value, "dB");
    }
  }

  // ---------------------------------------------------------------- contour

  /** One contour point: `(t%,pitch)`. */
  function PointText(p: (Units.F32, E.ProsodyPitch)): string
  {
    "(" + Units.SpeedText(p.0) + "," + E.PitchText(p.1) + ")"
  }

  function PointTexts(pts: seq<(Units.F32, E.ProsodyPitch)>): (r: seq<string>)
    ensures |r| == |pts| && forall i :: 0 <= i < |pts| ==> r[i] == PointText(pts[i])
  {
    if pts == [] then [] else [PointText(pts[0])] + PointTexts(pts[1..])
  }

  /** The contour display: the points separated by single spaces. */
  function ContourText(pts: seq<(Units.F32, E.ProsodyPitch)>): string
  {
    E.Join(PointTexts(pts), " ")
  }

  lemma {:induction false} JoinSnoc(parts: seq<string>, x: string, sep: string)
    ensures E.Join(parts + [x], sep) == if parts == [] then x else E.Join(parts, sep) + sep + x
    decreases |parts|
  {
    if |parts| == 1 {
      assert parts + [x] == [parts[0], x];
      assert [parts[0], x][1..] == [x];
    } else if |parts| > 1 {
      assert (parts + [x])[0] == parts[0] && (parts + [x])[1..] == parts[1..] + [x];
      JoinSnoc(parts[1..], x, sep);
      Xml.Assoc(parts[0] + sep, E.Join(parts[1..], sep) + sep, x);
    } else {
      assert parts + [x] == [x];
    }
  }

  lemma PointTextsSnoc(pts: seq<(Units.F32, E.ProsodyPitch)>, p: (Units.F32, E.ProsodyPitch))
    ensures PointTexts(pts + [p]) == PointTexts(pts) + [PointText(p)]
  {
  }

  /** Adding a point appends it to the display, after a space unless it is the first. */
  lemma ContourPush(pts: seq<(Units.F32, E.ProsodyPitch)>, p: (Units.F32, E.ProsodyPitch))
    ensures ContourText(pts + [p]) == if pts == [] then PointText(p) else ContourText(pts) + " " + PointText(p)
  {
    PointTextsSnoc(pts, p);
    JoinSnoc(PointTexts(pts), PointText(p), " ");
  }

  /** An empty contour displays as nothing, a single point as that point. */
  lemma ContourSmall(p: (Units.F32, E.ProsodyPitch))
    ensures ContourText([]) == ""
    ensures ContourText([p]) == PointText(p)
  {
    ContourPush([], p);
    assert [] + [p] == [p];
  }

  /** One round of the display loop: the text so far, a space unless this is
      the first point, then the point. */
  lemma DisplayStep(pts: seq<(Units.F32, E.ProsodyPitch)>, i: nat, prev: string)
    requires i < |pts| && prev == ContourText(pts[..i])
    ensures ContourText(pts[..i + 1]) == (if i > 0 then prev + " " else prev) + PointText(pts[i])
  {
    var init := pts[..i];
    assert pts[..i + 1] == init + [pts[i]];
    ContourPush(init, pts[i]);
    if i == 0 {
      assert init == [];
      ContourSmall(pts[i]);
    } else {
      assert |init| == i;
    }
  }

  class Contour {
    var points: seq<(Units.F32, E.ProsodyPitch)>

    /** `ProsodyContour::new` */
    constructor ()
      ensures points == []
    {
      points := [];
    }

    /** `push` (and `and`, which returns the contour): one point at the end. */
    method Push(time: Units.F32, pitch: E.ProsodyPitch)
      modifies this
      ensures points == old(points) + [(time, pitch)]
    {
      points := points + [(time, pitch)];
    }

    /** `Display`: each point in turn, a space before every point but the first. */
    method Display() returns (s: string)
      ensures s == ContourText(points)
    {
      s := "";
      var afterFirst := false;
      var i := 0;
      while i < |points|
        invariant 0 <= i <= |points|
        invariant afterFirst <==> i > 0
        invariant s == ContourText(points[..i])
      {
        var point := "(" + Units.SpeedText(points[i].0) + "," + E.PitchText(points[i].1) + ")";
        assert point == PointText(points[i]);
        DisplayStep(points, i, s);
        if afterFirst {
          s := s + " ";
        }
        s := s + point;
        afterFirst := true;
        i := i + 1;
      }
      assert points[..i] == points;
    }

    function Value(): E.ProsodyContour
      reads this
    {
      E.ProsodyContour.ProsodyContour(points)
    }
  }

  // ---------------------------------------------------------------- controls

  const NoControl := E.ProsodyControl(Option.None, Option.None, Option.None, Option.None, Option.None, Option.None)

  /** `ProsodyControl::with_pitch` */
  function WithPitch(c: E.ProsodyControl, p: E.ProsodyPitch): (r: E.ProsodyControl)
    ensures r.pitch == Some(p) && r.(pitch := c.pitch) == c
  {
    c.(pitch := Some(p))
  }

  /** `ProsodyControl::with_contour` */
  function WithContour(c: E.ProsodyControl, k: E.ProsodyContour): (r: E.ProsodyControl)
    ensures r.contour == Some(k) && r.(contour := c.contour) == c
  {
    c.(contour := Some(k))
  }

  /** `ProsodyControl::with_range` */
  function WithRange(c: E.ProsodyControl, p: E.ProsodyPitch): (r: E.ProsodyControl)
    ensures r.range == Some(p) && r.(range := c.range) == c
  {
    c.(range := Some(p))
  }

  /** `ProsodyControl::with_rate` */
  function WithRate(c: E.ProsodyControl, rate: E.ProsodyRate): (r: E.ProsodyControl)
    ensures r.rate == Some(rate) && r.(rate := c.rate) == c
  {
    c.(rate := Some(rate))
  }

  /** `ProsodyControl::with_duration` */
  function WithDuration(c: E.ProsodyControl, d: Units.TimeDesignation): (r: E.ProsodyControl)
    ensures r.duration == Some(d) && r.(duration := c.duration) == c
  {
    c.(duration := Some(d))
  }

  /** `ProsodyControl::with_volume` */
  function WithVolume(c: E.ProsodyControl, v: E.ProsodyVolume): (r: E.ProsodyControl)
    ensures r.volume == Some(v) && r.(volume := c.volume) == c
  {
    c.(volume := Some(v))
  }

  /** The names of the attributes a control writes, in order; the contour is not among them. */
  function ControlNames(c: E.ProsodyControl): seq<string>
  {
    (if c.pitch.Some? then ["pitch"] else [])
    + (if c.range.Some? then ["range"] else [])
    + (if c.rate.Some? then ["rate"] else [])
    + (if c.duration.Some? then ["duration"] else [])
    + (if c.volume.Some? then ["volume"] else [])
  }

  /** Pitch, range, rate, duration, volume, each written only when set. */
  lemma ProsodyAttrOrder(c: E.ProsodyControl)
    ensures AttrNames(E.ProsodyAttrs(c)) == ControlNames(c)
  {
    FiveNames(
      if c.pitch.Some? then Some(Xml.Trusted(E.PitchText(c.pitch.value))) else Option.None,
      if c.range.Some? then Some(Xml.Trusted(E.PitchText(c.range.value))) else Option.None,
      if c.rate.Some? then Some(Xml.Trusted(E.RateText(c.rate.value))) else Option.None,
      E.TimeOpt(c.duration),
      if c.volume.Some? then Some(Xml.Trusted(E.VolumeText(c.volume.value))) else Option.None);
  }

  /** The names of the five optional prosody attributes, whatever their values. */
  lemma FiveNames(pv: Option<Xml.AttrValue>, gv: Option<Xml.AttrValue>, rv: Option<Xml.AttrValue>,
                  dv: Option<Xml.AttrValue>, vv: Option<Xml.AttrValue>)
    ensures AttrNames(E.OptAttr("pitch", pv) + E.OptAttr("range", gv) + E.OptAttr("rate", rv)
                      + E.OptAttr("duration", dv) + E.OptAttr("volume", vv))
      == (if pv.Some? then ["pitch"] else []) + (if gv.Some? then ["range"] else [])
         + (if rv.Some? then ["rate"] else []) + (if dv.Some? then ["duration"] else [])
         + (if vv.Some? then ["volume"] else [])
  {
    var p := E.OptAttr("pitch", pv);
    var g := E.OptAttr("range", gv);
    var r := E.OptAttr("rate", rv);
    var d := E.OptAttr("duration", dv);
    var v := E.OptAttr("volume", vv);
    OptAttrNames("pitch", pv);
    OptAttrNames("range", gv);
    OptAttrNames("rate", rv);
    OptAttrNames("duration", dv);
    OptAttrNames("volume", vv);
    AttrNamesAppend(p, g);
    AttrNamesAppend(p + g, r);
    AttrNamesAppend(p + g + r, d);
    AttrNamesAppend(p + g + r + d, v);
  }

  /** The contour never reaches the output: changing it changes no attribute. */
  lemma ContourNotWritten(c: E.ProsodyControl, k: Option<E.ProsodyContour>)
    ensures E.ProsodyAttrs(c.(contour := k)) == E.ProsodyAttrs(c)
  {
  }

  /** The `From` conversions: a control made from one setting writes exactly
      that attribute, except a contour, which writes none. */
  lemma FromOneSetting(p: E.ProsodyPitch, k: E.ProsodyContour, rate: E.ProsodyRate, d: Units.TimeDesignation, v: E.ProsodyVolume)
    ensures AttrNames(E.ProsodyAttrs(WithPitch(NoControl, p))) == ["pitch"]
    ensures AttrNames(E.ProsodyAttrs(WithContour(NoControl, k))) == []
    ensures AttrNames(E.ProsodyAttrs(WithRate(NoControl, rate))) == ["rate"]
    ensures AttrNames(E.ProsodyAttrs(WithDuration(NoControl, d))) == ["duration"]
    ensures AttrNames(E.ProsodyAttrs(WithVolume(NoControl, v))) == ["volume"]
  {
    ProsodyAttrOrder(WithPitch(NoControl, p));
    ProsodyAttrOrder(WithContour(NoControl, k));
    ProsodyAttrOrder(WithRate(NoControl, rate));
    ProsodyAttrOrder(WithDuration(NoControl, d));
    ProsodyAttrOrder(WithVolume(NoControl, v));
  }

  // ---------------------------------------------------------------- the element

  class Prosody {
    var control: E.ProsodyControl
    var children: seq<E.Element>

    function Value(): E.Prosody
      reads this
    {
      E.Prosody.Prosody(control, children)
    }

    /** `Prosody::new` and `prosody()`. */
    constructor (control: E.ProsodyControl, elements: seq<E.Element>)
      ensures Value() == E.Prosody.Prosody(control, elements)
    {
      this.control := control;
      children := elements;
    }

    /** `with_pitch` */
    method SetPitch(p: E.ProsodyPitch)
      modifies this
      ensures Value() == old(Value()).(control := WithPitch(old(control), p))
    {
      control := WithPitch(control, p);
    }

    /** `with_contour` */
    method SetContour(k: E.ProsodyContour)
      modifies this
      ensures Value() == old(Value()).(control := WithContour(old(control), k))
    {
      control := WithContour(control, k);
    }

    /** `with_range` */
    method SetRange(p: E.ProsodyPitch)
      modifies this
      ensures Value() == old(Value()).(control := WithRange(old(control), p))
    {
      control := WithRange(control, p);
    }

    /** `with_rate` */
    method SetRate(r: E.ProsodyRate)
      modifies this
      ensures Value() == old(Value()).(control := WithRate(old(control), r))
    {
      control := WithRate(control, r);
    }

    /** `with_duration` */
    method SetDuration(d: Units.TimeDesignation)
      modifies this
      ensures Value() == old(Value()).(control := WithDuration(old(control), d))
    {
      control := WithDuration(control, d);
    }

    /** `with_volume` */
    method SetVolume(v: E.ProsodyVolume)
      modifies this
      ensures Value() == old(Value()).(control := WithVolume(old(control), v))
    {
      control := WithVolume(control, v);
    }

    /** `set_control` */
    method SetControl(c: E.ProsodyControl)
      modifies this
      ensures Value() == old(Value()).(control := c)
    {
      control := c;
    }

    method Push(e: E.Element)
      modifies this
      ensures Value() == old(Value()).(children := old(children) + [e])
    {
      children := children + [e];
    }

    method Extend(es: seq<E.Element>)
      modifies this
      ensures Value() == old(Value()).(children := old(children) + es)
    {
      children := children + es;
    }

    /** `serialize_xml`: the control's attributes, then the children. */
    method SerializeXml(w: Xml.XmlWriter, opts: SerializeOptions) returns (r: Result<(), Errors.Error>)
      modifies w
      ensures Xml.Outcome(r, w.Snapshot()) == Xml.Exec(old(w.Snapshot()), E.SerializeProsody(Value(), opts))
    {
      ghost var before := w.Snapshot();
      var body := E.ProsodyAttrs(control) + E.SerializeElements(children, opts);
      r := w.Element("prosody", body);
      ExecSingle(before, Xml.Cmd.Element("prosody", body));
    }
  }

  /** A prosody element succeeds exactly when none of its children is refused;
      it then writes the control's attributes and then its children. */
  lemma ProsodyWritten(w: Xml.WriterState, p: E.Prosody, opts: SerializeOptions)
    requires w.indent + 1 + HeightSeq(E.SerializeElements(p.children, opts)) <= 255
    ensures var o := Xml.Exec(w, E.SerializeProsody(p, opts));
      (o.result.Ok? <==> CleanSeq(p.children, opts)) &&
      (CleanSeq(p.children, opts) ==> o.after == Xml.WriteChild(w,
        "<prosody" + AttrsText(E.ProsodyAttrs(p.control))
        + ChildrenPart(E.SerializeElements(p.children, opts), w.pretty, w.indent, "prosody")))
  {
    assert E.Serialize(E.Element.Prosody(p), opts) == E.SerializeProsody(p, opts);
    ProsodyAttrsAreAttrs(p.control);
    if CleanSeq(p.children, opts) {
      SerializeElementsWellFormed(p.children, opts, false);
    }
    TaggedOutput(w, E.Element.Prosody(p), opts, "prosody", E.ProsodyAttrs(p.control), E.SerializeElements(p.children, opts));
    assert "<" + "prosody" == "<prosody";
  }
}
