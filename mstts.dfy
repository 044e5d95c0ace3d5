/** Microsoft-only additions to a voice (`src/mstts/mod.rs`): a viseme request
    written as a raw first child, and a voice effect written as an extra attribute. */
module Mstts {
  import opened Wrappers
  import opened Options
  import E = Elements
  import Xml
  import Escaping
  import opened Serialization
  import CustomElements
  import VoiceElement

  datatype Viseme = ById | FacialExpression

  datatype VoiceEffect = Automobile | Telecom

  function VisemeText(v: Viseme): string
  {
    match v
    case ById => "redlips_front"
    case FacialExpression => "FacialExpression"
  }

  function EffectText(e: VoiceEffect): string
  {
    match e
    case Automobile => "eq_car"
    case Telecom => "eq_telecomhp8k"
  }

  function VisemeFromText(s: string): Option<Viseme>
  {
    match s
    case "redlips_front" => Some(ById)
    case "FacialExpression" => Some(FacialExpression)
    case _ => Option.None
  }

  function EffectFromText(s: string): Option<VoiceEffect>
  {
    match s
    case "eq_car" => Some(Automobile)
    case "eq_telecomhp8k" => Some(Telecom)
    case _ => Option.None
  }

  /** Each viseme format and effect has its own text, which needs no escaping. */
  lemma DisplayTexts(v: Viseme, e: VoiceEffect)
    ensures VisemeFromText(VisemeText(v)) == Some(v) && EffectFromText(EffectText(e)) == Some(e)
    ensures Escaping.Escape(EffectText(e)) == EffectText(e)
  {
    Escaping.EscapeIdentity(EffectText(e));
  }

  /** The raw `<mstts:viseme type="…" />` child, labelled and restricted to the Microsoft flavor. */
  function VisemeMeta(config: Viseme): E.Meta
  {
    E.Meta.Meta("<mstts:viseme type=\"" + VisemeText(config) + "\" />", Some("MicrosoftViseme"), [MicrosoftAzureCognitiveSpeechServices])
  }

  /** `with_mstts_viseme`: the viseme request becomes the first child; the
      other children follow, unchanged and in order. */
  method WithMsttsViseme(v: VoiceElement.Voice, config: Viseme)
    modifies v
    ensures v.children == [E.Element.Meta(VisemeMeta(config))] + old(v.children)
    ensures v.attrs == old(v.attrs) && v.config == old(v.config)
  {
    v.InsertFirst(E.Element.Meta(VisemeMeta(config)));
  }

  /** `with_mstts_effect`: an `effect` attribute after the other extra attributes. */
  method WithMsttsEffect(v: VoiceElement.Voice, effect: VoiceEffect)
    modifies v
    ensures v.attrs == old(v.attrs) + [("effect", EffectText(effect))]
    ensures v.children == old(v.children) && v.config == old(v.config)
  {
    v.PushAttr("effect", EffectText(effect));
  }

  /** The viseme request is the first thing written inside the voice, as is,
      and no joining space follows it. */
  lemma VisemeWrittenFirst(config: Viseme, children: seq<E.Element>, opts: SerializeOptions)
    ensures E.SerializeElements([E.Element.Meta(VisemeMeta(config))] + children, opts) ==
      [Xml.Cmd.Raw("<mstts:viseme type=\"" + VisemeText(config) + "\" />")] + E.SerializeElements(children, opts)
  {
    var els := [E.Element.Meta(VisemeMeta(config))] + children;
    assert els[0] == E.Element.Meta(VisemeMeta(config)) && els[1..] == children;
    assert !E.JoinAfter(els, 0);
  }

  /** The effect is written as the last attribute of the voice, after the
      other extra attributes, and its value needs no escaping. */
  lemma EffectWrittenLast(v: E.Voice, effect: VoiceEffect)
    ensures CustomElements.PairsText(v.attrs + [("effect", EffectText(effect))]) ==
      CustomElements.PairsText(v.attrs) + Xml.AttrText("effect", Xml.Trusted(EffectText(effect)))
  {
    CustomElements.PairsAppend(v.attrs, [("effect", EffectText(effect))]);
    assert [("effect", EffectText(effect))][1..] == [];
    DisplayTexts(ById, effect);
  }
}
