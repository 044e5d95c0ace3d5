# A verified model of the `ssml` serializer

This project models the core of `ssml`, a Rust crate that builds SSML (Speech
Synthesis Markup Language) documents in memory and writes them out as XML text.
It also proves what that output looks like. The model covers these parts:

- **The XML writer** (`Xml`, `xml_writer.dfy`): the three-state machine of
  `src/xml/writer.rs`. The states are document start, element unclosed and
  element closed. The machine also holds a saturating `u8` indentation counter,
  a pretty-print flag and the output text.
  - `XmlWriter` is a class whose methods update those fields.
  - Each method is proved against `ExecOne`/`Exec`, a pure interpreter of writer
    commands.
  - The closure that `element` receives is modelled as a list of commands: attribute, text, raw
    text, nested element, the joining space of `serialize_elements`, and a
    refusal.
- **What the writer produces** (`XmlTheory`): a recursive description of the
  rendered text, independent of the state machine. It covers:
  - start tags and attributes;
  - `/>` or ` />` for an element without children;
  - one tab per level in pretty mode;
  - end tags.
  
  `RenderElement` proves that the writer writes exactly that.
- **Escaping** (`Escaping`): `escape` and `escape_to_string` of `src/util.rs`,
  with an unescaping partner and the round trip between them.
- **The element tree** (`Elements`): the `Element` sum type of `src/element.rs`
  and each element's `serialize_xml`, as the command list it hands to the writer.
  - `Serialization` runs those lists through the writer.
  - It proves that a tree serializes without error exactly when no element in
    it is refused.
  - It proves that the output is then the rendered text, including the single
    space that joins adjacent texts when not pretty printing.
- **The catalogue.** Each element gets its own module:
  - `speak`, `audio`, `voice`, `prosody`, `lang`, `mark`, `break`, `emphasis`,
    `group` and text;
  - the Microsoft additions (`mstts:express-as`, viseme and voice effect);
  - `CustomElement`.

  Where the crate changes an element in place (its `push`, `extend`, `set_*`
  and `with_*` methods), the element is a class. Each method states the whole
  new value of that class.
- **Units** (`Units`): time designations, decibel levels and the speed
  percentage of `src/unit.rs`, with their parsers and displays. They are proved
  to round-trip.

Rust's `f32` is modelled as an exact decimal with a separate sign bit. This keeps
`-0.0`, which `is_sign_negative` reports as negative, apart from `0.0`. Display
prints the shortest decimal.

Where the crate's documentation and its code differ, the model follows the code:

- `element` increments the indentation, runs the closure with `?`, and then
  decrements. An error inside the closure therefore returns before the
  decrement, and the counter stays raised (`XmlTheory.FailedElementKeepsIndent`).
- Because the counter saturates at 255, it comes back to its starting value only
  while the nesting stays within that bound. `XmlTheory.SaturatedIndentDrifts`
  exhibits the drift.
- `emphasis` keeps its children but never writes them.
- A prosody contour is never written as an attribute.
- `src/element.rs` has no `Element` variant for `prosody`, `lang` or `group`:
  the first two are commented out and the third is absent. In the crate these
  three are serialized only through their own `serialize_xml`. The model adds
  them to `Element` so that they can also be nested; see "Left out".

## Model

| member | source | states |
|---|---|---|
| Xml.SaturationInverse | src/xml/writer.rs:88-91 | below 255, leaving an element undoes entering it, and above 0 entering undoes leaving; the counter sticks at 255 and at 0, so entering at 255 and leaving again ends at 254 |
| Xml.Tabs | src/xml/writer.rs:64-66 | the indentation of a pretty line is exactly `n` tab characters |
| Xml.ExecStep | src/xml/writer.rs:89 | a closure runs its steps in order and stops at the first step that returns an error |
| Xml.XmlWriter.constructor | src/xml/writer.rs:52-59 | a new writer has written nothing, has indent 0 and is at the document start |
| Xml.XmlWriter.PrettyBreak | src/xml/writer.rs:61-69 | appends a newline and one tab per indent level in pretty mode, nothing otherwise; nothing else changes |
| Xml.XmlWriter.WriteLead | src/xml/writer.rs:77-82 | appends `>` when a start tag is pending, then a line break unless nothing was written yet |
| Xml.XmlWriter.Attr | src/xml/writer.rs:115-127 | once the element has children the call fails with `AttributesInChildContext` and writes nothing; otherwise ` name="value"` is appended |
| Xml.XmlWriter.AttrOpt | src/xml/writer.rs:132-134 | an absent value writes nothing and succeeds; a present one behaves exactly as `attr` |
| Xml.XmlWriter.Text | src/xml/writer.rs:137-150 | text never fails: the lead, then the escaped text, and the element is closed |
| Xml.XmlWriter.Raw | src/xml/writer.rs:153-166 | as `text`, with the content written unescaped |
| Xml.XmlWriter.Element | src/xml/writer.rs:74-110 | the writer's new state and result are those of the element step of the reference semantics `ExecOne` |
| Xml.XmlWriter.WriteEnd | src/xml/writer.rs:91-107 | one level up, then `/>` (` />` when pretty) if no child was written, else a line break and `</tag>`; the element is closed |
| Xml.XmlWriter.RunOne | src/xml/writer.rs:74-166 | each kind of closure step (attribute, text, raw, element) changes the writer as `ExecOne` says |
| Xml.XmlWriter.Run | src/xml/writer.rs:89 | a closure: the steps in order, stopping at the first error, as `Exec` says |
| XmlTheory.RenderElement | src/xml/writer.rs:74-110 | for a well-formed closure within 255 levels, `element` succeeds, writes exactly the independent rendering `Rendered` after the lead, and gives the indent back |
| XmlTheory.RenderBody | src/xml/writer.rs:89-106 | the closure of an element followed by its ending writes the attributes, then `/>` or the children and the end tag |
| XmlTheory.RenderChildren | src/xml/writer.rs:137-150 | children written into a closed element each start on a line of their own, one level deeper |
| XmlTheory.RenderDocument | src/xml/writer.rs:52-110 | a fresh writer given one well-formed element writes exactly its rendering, with no leading line break |
| XmlTheory.ExecAppend | src/xml/writer.rs:89 | running two closures back to back is running their concatenation |
| XmlTheory.ChildClosesElement | src/xml/writer.rs:107 | a successful child (element, text or raw) leaves the parent's start tag closed |
| XmlTheory.StaysClosed | src/xml/writer.rs:116-118 | once an element has a child, no successful step reopens its start tag |
| XmlTheory.StaysClosedSeq | src/xml/writer.rs:116-118 | the same for a whole closure |
| XmlTheory.AttrWhenClosedFails | src/xml/writer.rs:116-118 | an attribute anywhere in a closure run on a closed element makes the closure fail |
| XmlTheory.AttrAfterChildFails | src/xml/writer.rs:112-118 | an attribute written after a child of the same element makes the whole closure fail |
| XmlTheory.AttrAfterChildError | src/xml/writer.rs:116-118 | that failure is `AttributesInChildContext`, with nothing written |
| XmlTheory.NoReturnToDocumentStart | src/xml/writer.rs:87 | once something was written, the writer never returns to the document start |
| XmlTheory.NoReturnToDocumentStartSeq | src/xml/writer.rs:87 | the same for a whole closure |
| XmlTheory.PendingIffNoChild | src/xml/writer.rs:92-98 | after a successful closure the start tag is still pending exactly when the closure wrote no child |
| XmlTheory.ElementEnding | src/xml/writer.rs:92-106 | an element ends with `/>` exactly when its closure wrote no child, and with the end tag otherwise |
| XmlTheory.PrettyKept | src/xml/writer.rs:17 | no closure changes the pretty flag |
| XmlTheory.PrettyKeptOne | src/xml/writer.rs:17 | no single step changes the pretty flag |
| XmlTheory.IndentRestored | src/xml/writer.rs:88-91 | a successful step leaves the indent where it found it, provided nesting stays within 255 |
| XmlTheory.IndentRestoredSeq | src/xml/writer.rs:88-91 | the same for a whole closure |
| XmlTheory.SaturatedIndentDrifts | src/xml/writer.rs:88-91 | past 255 levels the saturating counters no longer balance: three nested elements entered at indent 254 leave it at 252 |
| XmlTheory.FailedElementKeepsIndent | src/xml/writer.rs:89 | a failing closure returns its error at once, leaving the indent one deeper and the start tag pending |
| XmlTheory.PrettyBreaks | src/xml/writer.rs:61-69 | the line breaks of the first four levels of a pretty document |
| XmlTheory.PlainAttr | src/xml/writer.rs:120-124 | an attribute whose value holds no markup character is rendered exactly as given |
| XmlTheory.TrustedAttr | src/xml/writer.rs:41-44 | a number-like value is written as displayed, without escaping |
| Escaping.EscapeChar | src/util.rs:30-37 | exactly the five markup characters are changed; every other character is copied |
| Escaping.EntityReferences | src/util.rs:30-37 | `"` becomes `&quot;`, `'` becomes `&apos;`, `<` becomes `&lt;`, `>` becomes `&gt;` and `&` becomes `&amp;` |
| Escaping.EscapeToString | src/util.rs:42-47 | the loop builds exactly the character-by-character escape of the text |
| Escaping.EscapeAppend | src/util.rs:27-40 | escaping distributes over concatenation |
| Escaping.EscapeIdentity | src/util.rs:36 | text without markup characters is written unchanged |
| Escaping.EscapeHasNoRawMarkup | src/util.rs:29-38 | escaped text contains no raw quote, apostrophe or angle bracket; its only markup character is `&` |
| Escaping.UnescapeEscape | src/util.rs:27-40 | escaping loses nothing: unescaping the escaped text gives it back |
| Escaping.TextExample | src/text.rs:35 | `One & two` escapes to `One &amp; two` |
| Serialization.FailAborts | src/xml/writer.rs:89 | an error anywhere inside an element stops the writer and is handed up through every enclosing element |
| Serialization.RefusedHasFail | src/mstts/express.rs:202-204 | an element tree holding a refused element serializes to a closure that reaches an error |
| Serialization.SerializeWellFormed | src/element.rs:30-36 | every element that no flavor check refuses serializes to a well-formed closure |
| Serialization.SerializeElementsWellFormed | src/util.rs:9-24 | the joining space of `serialize_elements` only ever follows a text |
| Serialization.SerializeChildren | src/util.rs:9-24 | children written into a closed element succeed exactly when none is refused, and then write their rendering and nothing else |
| Serialization.ElementWithChildren | src/element.rs:166-175 | an element whose attributes are followed by its children's `serialize_elements` is written as rendered when nothing below it is refused, and fails otherwise |
| Serialization.SerializeElementsSplit | src/util.rs:9-24 | `serialize_elements` of a concatenation is the two serializations, with a joining space only where two texts meet |
| Serialization.TwoTexts | src/util.rs:15-21 | two neighbouring texts are separated by one space in compact output and by a line break only in pretty output |
| Serialization.GroupWritesNoJoin | src/group.rs:58-71 | a group's children are written back to back with no joining space ever inserted |
| Serialization.SerializeHasNoTopJoin | src/util.rs:15-21 | only `serialize_elements` inserts joining spaces; no element's own closure does so at its level |
| Serialization.SerializeEachSplit | src/group.rs:58-71 | a group's serialization of a concatenation is the two serializations back to back |
| Serialization.ExpressGate | src/mstts/express.rs:188-211 | under a non-Microsoft flavor with checks on, `express-as` fails before anything is written; otherwise it is one element with style, degree and children |
| Serialization.SerializeElementsTo | src/util.rs:9-24 | the loop writes what the reference `SerializeElements` says: each element in turn, stopping at the first error, a space between two texts unless pretty |
| Serialization.JoinerStep | src/util.rs:15-21 | after element `i` one space is written exactly when it and the next one are texts and the output is compact |
| Serialization.SerializeGroupTo | src/group.rs:58-71 | the loop writes each child in turn with no element around them, stopping at the first error |
| Serialization.RenderedLeaf | src/xml/writer.rs:92-98 | an element with attributes only is a start tag closed on the spot |
| Serialization.RenderedParent | src/xml/writer.rs:99-104 | an element with children: start tag, children one level deeper, end tag |
| Serialization.LeafOutput | src/xml/writer.rs:74-110 | a leaf element below the nesting limit writes the lead, then `<tag attrs/>` |
| Serialization.AttrsTextAppend | src/xml/writer.rs:115-127 | attributes are written in the order they are given |
| Serialization.AttrNames | src/xml/writer.rs:115-127 | one name per command, the attribute's own name |
| Serialization.AttrNamesAppend | src/xml/writer.rs:115-127 | the attribute names of two lists back to back are the two name lists back to back |
| Serialization.OptAttrNames | src/xml/writer.rs:132-134 | an optional attribute contributes its name exactly when present |
| Serialization.ParentRendered | src/xml/writer.rs:74-110 | a well-formed element: lead, start tag, attributes, then `/>` or its children and end tag |
| Serialization.TaggedOutput | src/xml/writer.rs:74-110 | an element serialized as one tagged element succeeds exactly when nothing inside is refused, and then writes start tag, attributes and children |
| Elements.PairAttrs | src/element.rs:169-171 | one attribute per name/value pair, in order, the value escaped |
| TextElement.SerializeText | src/text.rs:17-21 | a text element is handed to the writer's `text` |
| TextElement.TextWritten | src/text.rs:11-21 | text never fails; it is written escaped after its lead, and unescaping what was written gives the text back |
| TextElement.TextEscapesExample | src/text.rs:33-37 | `text("One & two")` alone under the default options is exactly `One &amp; two` |
| MarkElement.Mark.constructor | src/mark.rs:13-15 | a new mark holds the given name |
| MarkElement.Mark.SetName | src/mark.rs:21-23 | the name is replaced |
| MarkElement.Mark.SerializeXml | src/mark.rs:39-46 | writes what the reference serialization of the mark says |
| MarkElement.MarkWritten | src/mark.rs:40-46 | a mark never fails below the nesting limit: `<bookmark mark=…/>` for the Microsoft service, `<mark name=…/>` for every other flavor, the name escaped |
| BreakElement.StrengthKeywords | src/break.rs:52-59 | each strength has its own keyword, which reads back as that strength and needs no escaping |
| BreakElement.SerializeBreak | src/break.rs:49-63 | writes what the reference serialization of the break says |
| BreakElement.BreakWritten | src/break.rs:50-61 | a break never fails below the nesting limit: a self-closing `break` with exactly one attribute, `strength` with the keyword or `time` with the time |
| BreakElement.BreakTimeReadsBack | src/break.rs:60 | the `time` written reads back as the same duration when non-negative; a negative one does not parse |
| BreakElement.BreakExample | src/break.rs:52-59 | a `BreakStrength::ExtraWeak` break alone in a compact document is exactly `<break strength="x-weak"/>` |
| EmphasisElement.Emphasis.constructor | src/emphasis.rs:24-29 | a new emphasis holds the level and the elements in order |
| EmphasisElement.Emphasis.Push | src/emphasis.rs:31-33 | the element is appended; the level is unchanged |
| EmphasisElement.Emphasis.Extend | src/emphasis.rs:35-37 | the elements are appended in order; the level is unchanged |
| EmphasisElement.Emphasis.SerializeXml | src/emphasis.rs:63-74 | writes what the reference serialization of the emphasis says |
| EmphasisElement.LevelKeywords | src/emphasis.rs:66-71 | each level has its own keyword, which reads back as that level and needs no escaping |
| EmphasisElement.EmphasisWritten | src/emphasis.rs:64-73 | an emphasis never fails below the nesting limit and is a self-closing element with its level keyword, whatever its children |
| GroupElement.Group.constructor | src/group.rs:16-20 | a new group holds the elements in order |
| GroupElement.Group.Push | src/group.rs:30-32 | the element is appended at the end |
| GroupElement.Group.Extend | src/group.rs:34-36 | the elements are appended at the end, in order |
| GroupElement.Group.SerializeXml | src/group.rs:49-56 | the loop writes what the reference serialization of the group says |
| GroupElement.GroupSplit | src/group.rs:50-55 | a group is transparent: a group of `a + b` writes what a group of `a` writes, then what a group of `b` writes, stopping where the first fails |
| GroupElement.EmptyGroup | src/group.rs:50-55 | an empty group writes nothing and leaves the writer unchanged |
| GroupElement.GroupWritten | src/group.rs:50-55 | after an earlier sibling (the parent's start tag already closed), a group succeeds exactly when none of its children is refused, then writes each child on a line of its own and never a joining space |
| GroupElement.GroupedTextsNotJoined | src/group.rs:51-53 | two texts in a group are written without the space that `serialize_elements` puts between them |
| LangElement.FailureKeywords | src/lang.rs:19-26 | each failure behaviour has its own keyword, which reads back as that behaviour and needs no escaping |
| LangElement.Lang.constructor | src/lang.rs:38-44 | a new `lang` holds the language, no failure behaviour and the elements in order |
| LangElement.Lang.SetFailureBehavior | src/lang.rs:46-57 | only the failure behaviour changes |
| LangElement.Lang.Push | src/lang.rs:67-69 | the element is appended at the end; nothing else changes |
| LangElement.Lang.Extend | src/lang.rs:71-73 | the elements are appended at the end, in order; nothing else changes |
| LangElement.Lang.SerializeXml | src/lang.rs:91-98 | writes what the reference serialization of the `lang` element says |
| LangElement.LangAttrsText | src/lang.rs:94-95 | `xml:lang` comes first, then `onlangfailure` only when a behaviour is set |
| LangElement.LangWritten | src/lang.rs:92-97 | a `lang` succeeds exactly when none of its children is refused, and then writes `xml:lang`, `onlangfailure` when set, and its children, self-closing when it has none |
| CustomElements.PairAttrsText | src/element.rs:169-171 | the attributes are written as ` name="value"` for each pair, in insertion order, values escaped |
| CustomElements.WithAttrWrittenLast | src/element.rs:120-123 | `with_attr` puts its attribute after every attribute added before it |
| CustomElements.PairsAppend | src/element.rs:169-171 | the attribute text of two pair lists back to back is the two texts back to back |
| CustomElements.WithChildrenWrittenLast | src/element.rs:125-133 | `with_child`/`with_children` add at the end: the new children are written after the old ones, joined by a space only where a text meets a text |
| CustomElements.SerializeCustom | src/element.rs:166-175 | the loop over the pairs writes what the reference serialization of the custom element says |
| CustomElements.CustomWritten | src/element.rs:166-175 | a custom element succeeds exactly when none of its children is refused, and then writes its tag, its attributes in order and its children |
| CustomElements.AttributesOnlySelfClose | src/element.rs:112-123 | a new custom element given only attributes is written as one self-closing tag |
| VoiceElement.GenderKeywords | src/voice.rs:16-25 | each gender has its own display text, which reads back as that gender; only `Unspecified` displays as the empty text |
| VoiceElement.Voice.constructor | src/voice.rs:131-137 | a new voice holds the configuration and the elements in order, and no extra attributes |
| VoiceElement.Voice.SetConfig | src/voice.rs:145-157 | only the configuration changes |
| VoiceElement.Voice.Push | src/voice.rs:182-184 | the element is appended at the end; nothing else changes |
| VoiceElement.Voice.Extend | src/voice.rs:209-211 | the elements are appended at the end, in order; nothing else changes |
| VoiceElement.Voice.PushAttr | src/mstts/mod.rs:145-148 | one extra attribute is appended after the others; nothing else changes |
| VoiceElement.Voice.InsertFirst | src/mstts/mod.rs:134-143 | one child is inserted before all others, which keep their order; nothing else changes |
| VoiceElement.Voice.SerializeXml | src/voice.rs:251-261 | the loop over the extra attributes writes what the reference serialization of the voice says |
| VoiceElement.ConfigAttrOrder | src/voice.rs:92-98 | the configuration writes gender, age, name, variant, language in that order, each only when set |
| VoiceElement.NamedConfigAttrs | src/voice.rs:45-50 | a configuration made from a name writes that name and nothing else |
| VoiceElement.SplitOn | src/voice.rs:95 | splitting at a separator always gives at least one piece |
| VoiceElement.JoinSplit | src/voice.rs:95-97 | names and languages are written joined by single spaces; when no name holds a space, splitting the value at spaces gives the list back |
| VoiceElement.VoiceAttrsText | src/voice.rs:254-257 | the configuration's attributes come before the extra attributes |
| VoiceElement.VoiceWritten | src/voice.rs:252-260 | a voice succeeds exactly when none of its children is refused, and then writes the configuration's attributes, the extra attributes in insertion order, then its children |
| Speak.Speak.constructor | src/speak.rs:27-33 | a new document holds the elements in order and the given language, and no marks |
| Speak.Speak.SetStartMark | src/speak.rs:35-46 | only the start mark changes |
| Speak.Speak.TakeStartMark | src/speak.rs:48-50 | hands back the start mark and leaves none; nothing else changes |
| Speak.Speak.SetEndMark | src/speak.rs:52-63 | only the end mark changes |
| Speak.Speak.TakeEndMark | src/speak.rs:65-67 | hands back the end mark and leaves none; nothing else changes |
| Speak.Speak.Push | src/speak.rs:87-89 | one element is appended at the end; nothing else changes (`+` and `+=` push too, src/speak.rs:173-186) |
| Speak.Speak.Extend | src/speak.rs:109-111 | the elements are appended at the end, in order; nothing else changes |
| Speak.Speak.SerializeXml | src/speak.rs:151-171 | writes what the `speak` element built from the document's fields says |
| Speak.SpeakAttrNamesInOrder | src/speak.rs:154-166 | the attributes are version and xmlns, `xml:lang` if set, `xmlns:mstts`, then `startmark` and `endmark` if set, in that order |
| Speak.VersionNames | src/speak.rs:154-157 | `version` and `xmlns` are written exactly for the generic and Microsoft flavors |
| Speak.MsttsNamespaceNames | src/speak.rs:160-163 | `xmlns:mstts` is written exactly for the Microsoft flavor |
| Speak.SynthesisNamespaceByFlavor | src/speak.rs:154-157 | the SSML namespace is declared if and only if the flavor is generic or Microsoft |
| Speak.MsttsNamespaceByFlavor | src/speak.rs:161-163 | the Microsoft namespace is declared if and only if the flavor is Microsoft |
| Speak.SpeakDocument | src/speak.rs:152-170 | a fresh writer succeeds exactly when no element in the document is refused, and then writes the rendered `<speak>` element and nothing else, attributes before children |
| Speak.HelloWorldDocument | src/speak.rs:196-204 | `speak(Some("en-US"), ["Hello, world!"])` pretty printed is the three-line document of the documentation |
| Speak.HelloWorldRendered | src/speak.rs:201-203 | the rendering of that document's element is the expected text |
| Mstts.DisplayTexts | src/mstts/mod.rs:30-37 | each viseme format and each effect has its own display text, which reads back as that value; the effect's text needs no escaping (src/mstts/mod.rs:59-66) |
| Mstts.WithMsttsViseme | src/mstts/mod.rs:134-143 | the raw viseme request, labelled and restricted to the Microsoft flavor, becomes the first child; the other children follow unchanged and in order; nothing else changes |
| Mstts.WithMsttsEffect | src/mstts/mod.rs:145-148 | an `effect` attribute is appended after the other extra attributes; nothing else changes |
| Mstts.VisemeWrittenFirst | src/mstts/mod.rs:84-92 | the viseme request is written first inside the voice, as is, with no joining space after it |
| Mstts.EffectWrittenLast | src/mstts/mod.rs:119-126 | the effect is written as the last attribute of the voice, after the other extra attributes |
| MsttsExpress.StyleNamesDistinct | src/mstts/express.rs:41-117 | every predefined style is written with a name of its own, which reads back as that style |
| MsttsExpress.StyleNamesPlain | src/mstts/express.rs:41-117 | no style name holds a markup character, so each is written as is |
| MsttsExpress.FromStyle | src/mstts/express.rs:21-25 | a style converts to an expression with its name at the default degree 1.0 |
| MsttsExpress.WithDegree | src/mstts/express.rs:33-35 | the degree always lies in [0.01, 2.0]; a degree in range is kept; one below is raised to 0.01 and one above is lowered to 2.0 |
| MsttsExpress.DegreeReadsBack | src/mstts/express.rs:208 | the `styledegree` attribute reads back as the degree, in shortest form |
| MsttsExpress.Express.constructor | src/mstts/express.rs:161-166 | a new section holds the expression and the elements in order |
| MsttsExpress.Express.Push | src/mstts/express.rs:169-171 | the element is appended at the end; the expression is unchanged |
| MsttsExpress.Express.Extend | src/mstts/express.rs:174-176 | the elements are appended at the end, in order; the expression is unchanged |
| MsttsExpress.Express.SerializeXml | src/mstts/express.rs:200-212 | returns the flavor error before writing anything when refused, and otherwise writes what the reference serialization says |
| MsttsExpress.ExpressWritten | src/mstts/express.rs:201-211 | with checks on and a flavor other than Microsoft's the section is refused and the writer is untouched; otherwise it succeeds exactly when none of its children is refused and writes `style`, `styledegree`, then its children |
| MsttsExpress.AcceptedWritten | src/mstts/express.rs:206-210 | an accepted section writes `style`, then `styledegree`, then its children, and fails only when a child is refused |
| AudioElement.Audio.constructor | src/audio.rs:44-46 | a new audio element holds the source and nothing else |
| AudioElement.Audio.SetSrc | src/audio.rs:52-54 | only the source changes |
| AudioElement.Audio.WithAlternate | src/audio.rs:64-67 | the elements are appended after the existing alternates, in order; nothing else changes |
| AudioElement.Audio.SetDesc | src/audio.rs:74-85 | only the description changes |
| AudioElement.Audio.TakeDesc | src/audio.rs:87-89 | hands back the description and leaves none; nothing else changes |
| AudioElement.Audio.WithClip | src/audio.rs:97-100 | both clip ends are set; nothing else changes |
| AudioElement.Audio.SetClipBegin | src/audio.rs:108-119 | only the clip begin changes |
| AudioElement.Audio.TakeClipBegin | src/audio.rs:121-123 | hands back the clip begin and leaves none; nothing else changes |
| AudioElement.Audio.SetClipEnd | src/audio.rs:131-142 | only the clip end changes |
| AudioElement.Audio.TakeClipEnd | src/audio.rs:144-146 | hands back the clip end and leaves none; nothing else changes |
| AudioElement.Audio.SetRepeat | src/audio.rs:156-167 | only the repetition changes |
| AudioElement.Audio.TakeRepeat | src/audio.rs:169-171 | hands back the repetition and leaves none; nothing else changes |
| AudioElement.Audio.SetSoundLevel | src/audio.rs:180-191 | only the sound level changes |
| AudioElement.Audio.TakeSoundLevel | src/audio.rs:193-195 | hands back the sound level and leaves none; nothing else changes |
| AudioElement.Audio.SetSpeed | src/audio.rs:203-214 | only the speed changes |
| AudioElement.Audio.TakeSpeed | src/audio.rs:216-218 | hands back the speed and leaves none; nothing else changes |
| AudioElement.Audio.SerializeXml | src/audio.rs:254-282 | writes what the reference serialization of the audio element says |
| AudioElement.AudioAttrOrder | src/audio.rs:257-270 | `src` is always written first, even when empty; then clip begin, clip end, the repetition, sound level and speed, each only when set |
| AudioElement.RepeatAttrName | src/audio.rs:262-267 | a repetition writes `repeatDur` for a duration and `times` for a count, never both |
| AudioElement.RepeatReadsBack | src/audio.rs:262-267 | a non-negative `repeatDur` reads back through the time parser as the same duration, and `times` reads back as the same count |
| AudioElement.DescRendered | src/audio.rs:272-274 | the description is a `desc` element holding the escaped text one level deeper |
| AudioElement.DescWellFormed | src/audio.rs:272-276 | the description and the alternates form a well-formed run of children |
| AudioElement.AudioWritten | src/audio.rs:255-281 | an audio element succeeds exactly when none of its alternates is refused, and then writes its attributes, the description (if any), then the alternates |
| AudioElement.BareAudioSelfCloses | src/audio.rs:256-279 | without description and alternates an audio element is one self-closing tag |
| AudioElement.DescBeforeAlternates | src/audio.rs:272-276 | with a description, the children start with it, before any alternate |
| ProsodyElement.PitchReadsBack | src/prosody.rs:32-45 | every pitch display reads back: a keyword as the same keyword, a number with its sign and unit as the same number in shortest form |
| ProsodyElement.SemitoneReadsBack | src/prosody.rs:41 | a semitone pitch is written with an explicit sign and `st`, and reads back as the same number |
| ProsodyElement.HzReadsBack | src/prosody.rs:42 | a hertz pitch is written with an explicit sign and `Hz`, and reads back as the same number |
| ProsodyElement.RateReadsBack | src/prosody.rs:65-77 | each rate keyword has its own display; a numeric rate is a percentage that reads back as a hundred times the clamped factor and is never negative |
| ProsodyElement.NewRate | src/prosody.rs:61-63 | a rate built by `new` is never negative, and a non-negative factor is kept as given |
| ProsodyElement.RateClampedTwice | src/prosody.rs:61-74 | clamping in `new` and again in the display agree; a negative rate built directly displays as `0%` |
| ProsodyElement.VolumeReadsBack | src/prosody.rs:100-113 | every volume display reads back: a keyword as itself, decibels as the same level in shortest form |
| ProsodyElement.ContourPush | src/prosody.rs:140-161 | adding a point appends its `(time%,pitch)` text to the display, after one space unless it is the first |
| ProsodyElement.ContourSmall | src/prosody.rs:145-161 | an empty contour displays as nothing, a one-point contour as that point alone |
| ProsodyElement.DisplayStep | src/prosody.rs:148-158 | one round of the display loop extends the display of the points seen so far by the next point |
| ProsodyElement.Contour.constructor | src/prosody.rs:123-125 | a new contour has no points |
| ProsodyElement.Contour.Push | src/prosody.rs:127-142 | the point is appended after the existing points |
| ProsodyElement.Contour.Display | src/prosody.rs:145-161 | the loop writes the points in order, separated by single spaces, which is the contour display |
| ProsodyElement.WithPitch | src/prosody.rs:182-185 | the pitch is set and every other control is unchanged |
| ProsodyElement.WithContour | src/prosody.rs:187-190 | the contour is set and every other control is unchanged |
| ProsodyElement.WithRange | src/prosody.rs:192-195 | the range is set and every other control is unchanged |
| ProsodyElement.WithRate | src/prosody.rs:197-200 | the rate is set and every other control is unchanged |
| ProsodyElement.WithDuration | src/prosody.rs:202-205 | the duration is set and every other control is unchanged |
| ProsodyElement.WithVolume | src/prosody.rs:207-210 | the volume is set and every other control is unchanged |
| ProsodyElement.ProsodyAttrOrder | src/prosody.rs:341-346 | the attributes are pitch, range, rate, duration and volume in that order, each only when set; the contour is never among them |
| ProsodyElement.ContourNotWritten | src/prosody.rs:341-348 | changing or removing the contour changes no attribute written |
| ProsodyElement.FromOneSetting | src/prosody.rs:213-252 | a control made from one setting writes exactly that attribute, except a contour, which writes none |
| ProsodyElement.Prosody.constructor | src/prosody.rs:262-267 | the new element holds the control and the children as given |
| ProsodyElement.Prosody.SetPitch | src/prosody.rs:269-272 | only the control's pitch changes |
| ProsodyElement.Prosody.SetContour | src/prosody.rs:274-277 | only the control's contour changes |
| ProsodyElement.Prosody.SetRange | src/prosody.rs:279-282 | only the control's range changes |
| ProsodyElement.Prosody.SetRate | src/prosody.rs:284-287 | only the control's rate changes |
| ProsodyElement.Prosody.SetDuration | src/prosody.rs:289-292 | only the control's duration changes |
| ProsodyElement.Prosody.SetVolume | src/prosody.rs:294-297 | only the control's volume changes |
| ProsodyElement.Prosody.SetControl | src/prosody.rs:307-309 | the control is replaced; the children stay |
| ProsodyElement.Prosody.Push | src/prosody.rs:319-321 | the child is appended after the existing children; the control stays |
| ProsodyElement.Prosody.Extend | src/prosody.rs:323-325 | the children are appended in order; the control stays |
| ProsodyElement.Prosody.SerializeXml | src/prosody.rs:339-350 | writes what the reference serialization of the prosody element says |
| ProsodyElement.ProsodyWritten | src/prosody.rs:340-349 | a prosody element succeeds exactly when none of its children is refused, and then writes the control's attributes and then the children |
| Units.Max0 | src/prosody.rs:62 | the result is never negative, and a non-negative value is kept |
| Units.Clamp | src/mstts/express.rs:34 | the result lies within the bounds, and a value already within them is kept |
| Units.ClampOutside | src/mstts/express.rs:34 | a value below the lower bound becomes that bound, one above the upper bound becomes that one |
| Units.ParseF32 | src/unit.rs:84 | a parsed number carries the sign bit exactly when the text starts with `-` |
| Units.ShowSignedRoundTrip | src/unit.rs:101 | a number written with `{:+}` parses back to the same number, in shortest form |
| Units.ShowRoundTrip | src/unit.rs:208 | a number written with `{}` parses back to the same number, in shortest form |
| Units.AsciiUtf8Len | src/unit.rs:71 | the byte length used by the parsers equals the character count exactly for ASCII text |
| Units.TimeFromStr | src/unit.rs:70-90 | text shorter than two bytes is `BadLength`; an accepted time is never negative and ends in `s` |
| Units.TimeUnitChoice | src/unit.rs:76-82 | `ms` selects milliseconds; `s` after a digit or `.` selects seconds; anything else is `BadUnit` |
| Units.NegativeTimeRefused | src/unit.rs:84-87 | text starting with `-` is never a time |
| Units.TimeFrom | src/unit.rs:93-97 | a parseable text gives its time, anything else the default of 0 ms |
| Units.TimeTextRoundTrip | src/unit.rs:70-103 | a displayed non-negative time parses back to the same number of milliseconds; a negative one is refused as `Negative` |
| Units.DecibelsFromStr | src/unit.rs:165-177 | text shorter than two bytes is `BadLength`; an accepted level ends in `dB` |
| Units.DecibelsFrom | src/unit.rs:186-190 | a parseable text gives its level, anything else the default of 0 dB |
| Units.DecibelsTextRoundTrip | src/unit.rs:165-196 | every displayed level, negative ones included, parses back to the same number |
| Units.SpeedTextRoundTrip | src/unit.rs:205-210 | the speed text ends in `%` and the number before it reads back as a hundred times the factor |
| Units.TimeSecondsExample | src/unit.rs:219 | `+7s` is 7000 ms |
| Units.TimeMillisExample | src/unit.rs:220 | `700ms` is 700 ms |
| Units.TimeRefusedExamples | src/unit.rs:221 | `-.7s` is refused as negative; `s` is too short; `7m` has a bad unit |
| Units.TimeUnitsAgree | src/unit.rs:37 | `15s` and `15000ms` both designate 15000 ms |
| Units.TimeMillisExample2 | src/unit.rs:38 | `750ms` is 750 ms |
| Units.TimeFractionExample | src/unit.rs:39 | `+0.75s` is 750 ms |
| Units.TimeUnitRefusals | src/unit.rs:42-45 | `-5s` is refused as negative; `5 s`, `15sec` and `5m` have a bad unit |
| Units.DecibelsExamples | src/unit.rs:226-229 | `+6dB` is 6 dB and `-.6dB` is -0.6 dB; `6` is too short and `6db` has a bad unit |
| Units.DecibelsDocAccepted | src/unit.rs:137-139 | `+0.0dB` is zero, `-6dB` is -6 dB and `2dB` is 2 dB |
| Units.DecibelsDocRefused | src/unit.rs:142-144 | `-3DB` has a bad unit, `0 dB` is not a number and `6` is too short |

## Left out

- Floating point: `f32` rounding, exponent notation, infinities and NaN are not modelled. Numbers are exact decimals, and the parser accepts `[+-]?(d+(.d*)?|.d+)`.
- `Units.Max0`: `f32::max(-0.0, 0.0)` may return either zero. The model always returns `0.0`.
- Failures of the output sink (`fmt::Error` from `core::fmt::Write`) are not modelled. Writing to the text always succeeds.
- `src/visit.rs` and `src/visit_mut.rs` (tree visitors) are not part of this model.
- `src/custom.rs` is not part of this model. `src/say_as.rs` is not part of this model either, so the `SayAs` variant of `Element` is left out.
- `Meta` is modelled as raw text written unchanged. Its flavor restriction is not checked, because `Meta`'s own source is not part of this model.
- The crate's top-level `Serialize::serialize` entry point and its flavor checks are not modelled. Only the Microsoft check of `mstts:express-as` is modelled (`MsttsExpress.ExpressWritten`).
- `to_owned`/`into_owned` (lifetime changes only) and the `serde` derives are left out. So are getters and the `*_mut` accessors, which hand out references.
- The builder methods `with_*` take the element by value and return it. They are modelled as the in-place setter on the class, which has the same effect on the value.
- The `Add`/`AddAssign` operators only call `push`, so they are covered by each class's `Push`.
- Checks that exist only in documentation are not modelled, for example the requirement that a language be set for some services.
- The full documentation examples in `src/mstts/express.rs` and `src/mstts/mod.rs` are not modelled as whole documents. The attributes and children they produce are modelled.
- `Elements.Element`: the variants `Prosody`, `Lang` and `Group` extend the crate's `Element` enum, which has no such variants and no conversion into it. Nesting a prosody, lang or group element inside another element is an extension of the model, not behaviour of the crate. Serializing one of them on its own matches its `serialize_xml`.
- Elements other than `speak` are values inside `Element`. Aliasing between an element held by a class and the same element inside a tree is not modelled.
