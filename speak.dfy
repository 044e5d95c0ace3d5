/**
 * The root `<speak>` element (`src/speak.rs`): a document that owns its
 * children, an optional language and optional start and end marks.
 */
module Speak {
  import opened Wrappers
  import opened Options
  import opened Elements
  import Xml
  import Escaping
  import opened XmlTheory
  import opened Serialization

  const SynthesisNamespace := "http://www.w3.org/2001/10/synthesis"
  const MsttsNamespace := "http://www.w3.org/2001/mstts"

  /** The SSML version and namespace, written for the generic and Microsoft flavors. */
  function VersionAttrs(opts: SerializeOptions): seq<Xml.Cmd>
  {
    if opts.flavor == Generic || opts.flavor == MicrosoftAzureCognitiveSpeechServices
    then [Xml.Cmd.Attr("version", Xml.Escaped("1.0")), Xml.Cmd.Attr("xmlns", Xml.Escaped(SynthesisNamespace))]
    else []
  }

  /** The Microsoft namespace, written for the Microsoft flavor only. */
  function MsttsNamespaceAttr(opts: SerializeOptions): seq<Xml.Cmd>
  {
    if opts.flavor == MicrosoftAzureCognitiveSpeechServices then [Xml.Cmd.Attr("xmlns:mstts", Xml.Escaped(MsttsNamespace))] else []
  }

  /** The attributes of `<speak>` in the order they are written: version and
      namespace, language, the Microsoft namespace, then the marks. */
  function SpeakAttrs(lang: Option<string>, startMark: Option<string>, endMark: Option<string>, opts: SerializeOptions): seq<Xml.Cmd>
  {
    VersionAttrs(opts)
    + OptAttr("xml:lang", EscapedOpt(lang))
    + MsttsNamespaceAttr(opts)
    + OptAttr("startmark", EscapedOpt(startMark))
    + OptAttr("endmark", EscapedOpt(endMark))
  }

  /** The closure `Speak::serialize_xml` hands to the writer. */
  function SpeakCmd(children: seq<Element>, lang: Option<string>, startMark: Option<string>, endMark: Option<string>, opts: SerializeOptions): Xml.Cmd
  {
    Xml.Cmd.Element("speak", SpeakAttrs(lang, startMark, endMark, opts) + SerializeElements(children, opts))
  }

  class Speak {
    var children: seq<Element>
    var startMark: Option<string>
    var endMark: Option<string>
    var lang: Option<string>

    /** `Speak::new` and `speak()`: the given children and language, no marks. */
    constructor (lang: Option<string>, elements: seq<Element>)
      ensures children == elements && this.lang == lang
      ensures startMark == Option.None && endMark == Option.None
    {
      children := elements;
      this.lang := lang;
      startMark := Option.None;
      endMark := Option.None;
    }

    /** `set_start_mark` (and `with_start_mark`, which returns the document). */
    method SetStartMark(mark: string)
      modifies this
      ensures startMark == Some(mark)
      ensures children == old(children) && endMark == old(endMark) && lang == old(lang)
    {
      startMark := Some(mark);
    }

    /** `take_start_mark`: hands back the mark and leaves none. */
    method TakeStartMark() returns (mark: Option<string>)
      modifies this
      ensures mark == old(startMark) && startMark == Option.None
      ensures children == old(children) && endMark == old(endMark) && lang == old(lang)
    {
      mark := startMark;
      startMark := Option.None;
    }

    method SetEndMark(mark: string)
      modifies this
      ensures endMark == Some(mark)
      ensures children == old(children) && startMark == old(startMark) && lang == old(lang)
    {
      endMark := Some(mark);
    }

    method TakeEndMark() returns (mark: Option<string>)
      modifies this
      ensures mark == old(endMark) && endMark == Option.None
      ensures children == old(children) && startMark == old(startMark) && lang == old(lang)
    {
      mark := endMark;
      endMark := Option.None;
    }

    /** `push`, `+` and `+=`: one more child at the end. */
    method Push(e: Element)
      modifies this
      ensures children == old(children) + [e]
      ensures startMark == old(startMark) && endMark == old(endMark) && lang == old(lang)
    {
      children := children + [e];
    }

    method Extend(es: seq<Element>)
      modifies this
      ensures children == old(children) + es
      ensures startMark == old(startMark) && endMark == old(endMark) && lang == old(lang)
    {
      children := children + es;
    }

    function ToCmd(opts: SerializeOptions): Xml.Cmd
      reads this
    {
      SpeakCmd(children, lang, startMark, endMark, opts)
    }

    /** `serialize_xml`: the `speak` element around the attributes and children. */
    method SerializeXml(w: Xml.XmlWriter, opts: SerializeOptions) returns (r: Result<(), Errors.Error>)
      modifies w
      ensures Xml.Outcome(r, w.Snapshot()) == Xml.ExecOne(old(w.Snapshot()), ToCmd(opts))
    {
      r := w.Element("speak", SpeakAttrs(lang, startMark, endMark, opts) + SerializeElements(children, opts));
    }
  }

  // ---------------------------------------------------------------- properties

  lemma SpeakAttrsAreAttrs(lang: Option<string>, startMark: Option<string>, endMark: Option<string>, opts: SerializeOptions)
    ensures AllAttrs(SpeakAttrs(lang, startMark, endMark, opts))
  {
    var a := VersionAttrs(opts);
    var b := OptAttr("xml:lang", EscapedOpt(lang));
    var c := MsttsNamespaceAttr(opts);
    var d := OptAttr("startmark", EscapedOpt(startMark));
    var e := OptAttr("endmark", EscapedOpt(endMark));
    AllAttrsAppend(a, b);
    AllAttrsAppend(a + b, c);
    AllAttrsAppend(a + b + c, d);
    AllAttrsAppend(a + b + c + d, e);
  }

  /** The attribute names of `<speak>`, in order. */
  function SpeakAttrNameList(lang: Option<string>, startMark: Option<string>, endMark: Option<string>, opts: SerializeOptions): seq<string>
  {
    var acss := opts.flavor == MicrosoftAzureCognitiveSpeechServices;
    (if opts.flavor == Generic || acss then ["version", "xmlns"] else [])
    + (if lang.Some? then ["xml:lang"] else [])
    + (if acss then ["xmlns:mstts"] else [])
    + (if startMark.Some? then ["startmark"] else [])
    + (if endMark.Some? then ["endmark"] else [])
  }

  lemma SpeakAttrNamesInOrder(lang: Option<string>, startMark: Option<string>, endMark: Option<string>, opts: SerializeOptions)
    ensures AttrNames(SpeakAttrs(lang, startMark, endMark, opts)) == SpeakAttrNameList(lang, startMark, endMark, opts)
  {
    var a := VersionAttrs(opts);
    var b := OptAttr("xml:lang", EscapedOpt(lang));
    var c := MsttsNamespaceAttr(opts);
    var d := OptAttr("startmark", EscapedOpt(startMark));
    var e := OptAttr("endmark", EscapedOpt(endMark));
    VersionNames(opts);
    MsttsNamespaceNames(opts);
    OptAttrNames("xml:lang", EscapedOpt(lang));
    OptAttrNames("startmark", EscapedOpt(startMark));
    OptAttrNames("endmark", EscapedOpt(endMark));
    AttrNamesAppend(a, b);
    AttrNamesAppend(a + b, c);
    AttrNamesAppend(a + b + c, d);
    AttrNamesAppend(a + b + c + d, e);
  }

  lemma VersionNames(opts: SerializeOptions)
    ensures AttrNames(VersionAttrs(opts)) ==
      if opts.flavor == Generic || opts.flavor == MicrosoftAzureCognitiveSpeechServices then ["version", "xmlns"] else []
  {
    var a := VersionAttrs(opts);
    if a != [] {
      assert a[1..] == [a[1]];
      OneAttrName(a[1]);
    }
  }

  lemma MsttsNamespaceNames(opts: SerializeOptions)
    ensures AttrNames(MsttsNamespaceAttr(opts)) == if opts.flavor == MicrosoftAzureCognitiveSpeechServices then ["xmlns:mstts"] else []
  {
    if opts.flavor == MicrosoftAzureCognitiveSpeechServices {
      OneAttrName(MsttsNamespaceAttr(opts)[0]);
    }
  }


  /** The SSML namespace is declared only for the generic and Microsoft flavors. */
  lemma SynthesisNamespaceByFlavor(lang: Option<string>, startMark: Option<string>, endMark: Option<string>, opts: SerializeOptions)
    ensures "xmlns" in AttrNames(SpeakAttrs(lang, startMark, endMark, opts)) <==>
      opts.flavor == Generic || opts.flavor == MicrosoftAzureCognitiveSpeechServices
  {
    SpeakAttrNamesInOrder(lang, startMark, endMark, opts);
    var n := SpeakAttrNameList(lang, startMark, endMark, opts);
    if !(opts.flavor == Generic || opts.flavor == MicrosoftAzureCognitiveSpeechServices) {
      assert n == (if lang.Some? then ["xml:lang"] else []) + (if startMark.Some? then ["startmark"] else []) + (if endMark.Some? then ["endmark"] else []);
    } else {
      assert n[1] == "xmlns";
    }
  }

  /** The Microsoft namespace is declared only for the Microsoft flavor. */
  lemma MsttsNamespaceByFlavor(lang: Option<string>, startMark: Option<string>, endMark: Option<string>, opts: SerializeOptions)
    ensures "xmlns:mstts" in AttrNames(SpeakAttrs(lang, startMark, endMark, opts)) <==> opts.flavor == MicrosoftAzureCognitiveSpeechServices
  {
    SpeakAttrNamesInOrder(lang, startMark, endMark, opts);
    var n := SpeakAttrNameList(lang, startMark, endMark, opts);
    var before := (if opts.flavor == Generic || opts.flavor == MicrosoftAzureCognitiveSpeechServices then ["version", "xmlns"] else [])
      + (if lang.Some? then ["xml:lang"] else []);
    if opts.flavor == MicrosoftAzureCognitiveSpeechServices {
      assert n[|before|] == "xmlns:mstts";
    }
  }

  /** The whole document: a fresh writer succeeds exactly when no element in
      it is refused by the flavor, and then writes the rendered `<speak>`
      element and nothing else (within 255 levels of nesting). */
  lemma SpeakDocument(children: seq<Element>, lang: Option<string>, startMark: Option<string>, endMark: Option<string>, opts: SerializeOptions)
    requires Height(SpeakCmd(children, lang, startMark, endMark, opts)) <= 255
    ensures var c := SpeakCmd(children, lang, startMark, endMark, opts);
      var r := Xml.ExecOne(Xml.WriterState("", 0, opts.pretty, Xml.DocumentStart), c);
      (r.result.Ok? <==> CleanSeq(children, opts)) &&
      (CleanSeq(children, opts) ==> r.after == Xml.WriterState(Rendered(c, opts.pretty, 0), 0, opts.pretty, Xml.ElementClosed))
  {
    var w := Xml.WriterState("", 0, opts.pretty, Xml.DocumentStart);
    SpeakAttrsAreAttrs(lang, startMark, endMark, opts);
    ElementWithChildren(w, "speak", SpeakAttrs(lang, startMark, endMark, opts), children, opts);
  }

  // ---------------------------------------------------------------- example

  /** The document of `speak()`'s documentation, pretty printed with the generic flavor. */
  lemma HelloWorldDocument()
    ensures var opts := SerializeOptions(Generic, true, true);
      Xml.ExecOne(Xml.WriterState("", 0, true, Xml.DocumentStart), SpeakCmd([FromStr("Hello, world!")], Some("en-US"), Option.None, Option.None, opts)) ==
      Xml.Outcome(Ok(()), Xml.WriterState(HelloWorldText, 0, true, Xml.ElementClosed))
  {
    var opts := SerializeOptions(Generic, true, true);
    var els := [FromStr("Hello, world!")];
    HelloWorldCmd();
    assert CleanSeq(els, opts) by {
      assert els[1..] == [];
    }
    FlatHeight(HelloWorldBody);
    SpeakDocument(els, Some("en-US"), Option.None, Option.None, opts);
    HelloWorldRendered();
  }

  /** The expected document, written out piece by piece. */
  const HelloWorldText :=
    "<speak" + " version=\"1.0\"" + (" xmlns=\"" + SynthesisNamespace + "\"") + " xml:lang=\"en-US\"" + ">"
    + "\n\tHello, world!"
    + "\n</speak>"

  const HelloWorldBody := [
    Xml.Cmd.Attr("version", Xml.Escaped("1.0")),
    Xml.Cmd.Attr("xmlns", Xml.Escaped(SynthesisNamespace)),
    Xml.Cmd.Attr("xml:lang", Xml.Escaped("en-US")),
    Xml.Cmd.Text("Hello, world!")]

  lemma HelloWorldCmd()
    ensures SpeakCmd([FromStr("Hello, world!")], Some("en-US"), Option.None, Option.None, SerializeOptions(Generic, true, true)) ==
      Xml.Cmd.Element("speak", HelloWorldBody)
  {
    var opts := SerializeOptions(Generic, true, true);
    var els := [FromStr("Hello, world!")];
    assert els[1..] == [];
    assert SerializeElements(els, opts) == [Xml.Cmd.Text("Hello, world!")];
  }

  lemma HelloWorldRendered()
    ensures Rendered(Xml.Cmd.Element("speak", HelloWorldBody), true, 0) == HelloWorldText
  {
    var a := " version=\"1.0\"";
    var b := (" xmlns=\"" + SynthesisNamespace + "\"");
    var c := " xml:lang=\"en-US\"";
    var x := "\n\tHello, world!";
    var y := "\n</speak>";
    HelloWorldAttrs();
    assert "<" + "speak" == "<speak";
    Xml.Assoc("<speak", a, b + (c + (">" + x + y)));
    Xml.Assoc("<speak" + a, b, c + (">" + x + y));
    Xml.Assoc("<speak" + a + b, c, ">" + x + y);
    Xml.Assoc("<speak" + a + b + c, ">" + x, y);
    Xml.Assoc("<speak" + a + b + c, ">", x);
  }

  lemma HelloWorldAttrs()
    ensures RenderedBody(HelloWorldBody, true, 0, "speak") ==
      " version=\"1.0\"" + ((" xmlns=\"" + SynthesisNamespace + "\"") + (" xml:lang=\"en-US\"" + (">" + "\n\tHello, world!" + "\n</speak>")))
  {
    var r3 := [Xml.Cmd.Attr("xml:lang", Xml.Escaped("en-US"))] + [Xml.Cmd.Text("Hello, world!")];
    var r2 := [Xml.Cmd.Attr("xmlns", Xml.Escaped(SynthesisNamespace))] + r3;
    var r1 := [Xml.Cmd.Attr("version", Xml.Escaped("1.0"))] + r2;
    HelloWorldLang();
    NamespaceAttrs(r3);
    assert HelloWorldBody == r1;
  }

  lemma HelloWorldLang()
    ensures RenderedBody([Xml.Cmd.Attr("xml:lang", Xml.Escaped("en-US"))] + [Xml.Cmd.Text("Hello, world!")], true, 0, "speak") ==
      " xml:lang=\"en-US\"" + (">" + "\n\tHello, world!" + "\n</speak>")
  {
    HelloWorldTail();
    AttrLiterals();
    PlainAttr("xml:lang", "en-US", [Xml.Cmd.Text("Hello, world!")], true, 0, "speak");
  }

  /** The version and namespace attributes as they appear in the document. */
  lemma NamespaceAttrs(rest: seq<Xml.Cmd>)
    ensures RenderedBody([Xml.Cmd.Attr("version", Xml.Escaped("1.0"))] + ([Xml.Cmd.Attr("xmlns", Xml.Escaped(SynthesisNamespace))] + rest), true, 0, "speak") ==
      " version=\"1.0\"" + ((" xmlns=\"" + SynthesisNamespace + "\"") + RenderedBody(rest, true, 0, "speak"))
  {
    AttrLiterals();
    PlainAttr("xmlns", SynthesisNamespace, rest, true, 0, "speak");
    PlainAttr("version", "1.0", [Xml.Cmd.Attr("xmlns", Xml.Escaped(SynthesisNamespace))] + rest, true, 0, "speak");
  }

  lemma AttrLiterals()
    ensures " " + "xml:lang" + "=\"" + "en-US" + "\"" == " xml:lang=\"en-US\""
    ensures " " + "xmlns" + "=\"" + SynthesisNamespace + "\"" == (" xmlns=\"" + SynthesisNamespace + "\"")
    ensures " " + "version" + "=\"" + "1.0" + "\"" == " version=\"1.0\""
  {
  }

  lemma HelloWorldTail()
    ensures RenderedBody([Xml.Cmd.Text("Hello, world!")], true, 0, "speak") == ">" + "\n\tHello, world!" + "\n</speak>"
  {
    LastChild(Xml.Cmd.Text("Hello, world!"), true, 1);
    HelloChild();
    PrettyBreaks();
    assert Xml.EndTag(true, 0, "speak") == "\n</speak>";
  }

  lemma HelloChild()
    ensures RenderedChild(Xml.Cmd.Text("Hello, world!"), true, 1) == "\n\tHello, world!"
  {
    PrettyBreaks();
    HelloText();
  }

  lemma HelloText()
    ensures Escaping.Escape("Hello, world!") == "Hello, world!"
  {
    Escaping.EscapeIdentity("Hello, world!");
  }
}
