/** The records exchanged between panel and host, and the static catalogs both
    sides share: the style buttons, the localized menu names used to add a
    style, the blend-mode table and the per-style property definitions.
    The host script carries its own inlined copy of these catalogs with the
    same entries; the model declares them once. */
module LayerStyleTypes {
  import opened Common

  /** A value as it crosses between panel and host: a number, a boolean or an array of numbers. */
  datatype Value = Num(x: real) | Bool(b: bool) | Vec(xs: seq<real>)

  datatype StyleButtonDef = StyleButtonDef(
    id: string,
    caption: string,
    matchName: string,
    fallback: string,
    cmdId: Option<int>)

  datatype ValueKind = NumberKind | ColorKind | BlendModeKind | BooleanKind

  /** A definition's `key` is either one string or an ordered list of aliases. */
  datatype CandidateKeys = OneKey(key: string) | KeyList(list: seq<string>)

  datatype PropDef = PropDef(caption: string, key: CandidateKeys, kind: ValueKind)

  datatype BlendModeEntry = BlendModeEntry(name: string, val: int)

  datatype KeyframeAction = Add | Remove | Prev | Next | HoldAll

  datatype PropState = PropState(
    caption: string,
    kind: ValueKind,
    value: Value,
    canVaryOverTime: bool,
    numKeys: nat,
    onKeyframe: bool,
    hasPrev: bool,
    hasNext: bool)

  datatype StyleNavState = StyleNavState(id: string, isExisting: bool, isEnabled: bool)

  datatype PColorState = PColorState(
    color: seq<real>,
    isDisabled: bool,
    effectName: string,
    propIdx: int,
    enableIdx: int)

  datatype PanelState = PanelState(
    hasLayer: bool,
    layerName: string,
    currentStyleId: string,
    styleNav: seq<StyleNavState>,
    fillOpacity: Option<Value>,
    fillOpacityCanVary: bool,
    fillOpacityNumKeys: nat,
    fillOpacityOnKey: bool,
    fillOpacityHasPrev: bool,
    fillOpacityHasNext: bool,
    props: seq<PropState>,
    pColors: seq<PColorState>,
    compTime: real,
    isSoloActive: bool,
    layerHash: string)

  const MasterStyleId: string := "masterStyle"

  const StyleButtons: seq<StyleButtonDef> := [
    StyleButtonDef("innerShadow", "内シ", "innerShadow/enabled", "ADBE Layer Style Inner Shadow", Some(9001)),
    StyleButtonDef("bevelEmboss", "ベベ", "bevelEmboss/enabled", "ADBE Layer Style Bevel Emboss", Some(9004)),
    StyleButtonDef("dropShadow", "ドシ", "dropShadow/enabled", "ADBE Layer Style Drop Shadow", Some(9000)),
    StyleButtonDef("outerGlow", "外光", "outerGlow/enabled", "ADBE Layer Style Outer Glow", Some(9002)),
    StyleButtonDef("innerGlow", "内光", "innerGlow/enabled", "ADBE Layer Style Inner Glow", Some(9003)),
    StyleButtonDef("chromeFX", "サテ", "chromeFX/enabled", "ADBE Layer Style Satin", Some(9005)),
    StyleButtonDef("solidFill", "カラ", "solidFill/enabled", "ADBE Layer Style Color Overlay", Some(9006)),
    StyleButtonDef("gradientFill", "グラ", "gradientFill/enabled", "ADBE Layer Style Gradient Overlay", Some(9007)),
    StyleButtonDef("frameFX", "境界", "frameFX/enabled", "ADBE Layer Style Stroke", Some(9008)),
    StyleButtonDef("masterStyle", "全L", "ADBE Layer Styles", "ADBE Layer Styles", None)
  ]

  /** Localized names of the "add this style" menu command, tried in order;
      `None` for a style the table does not list. */
  function MenuCommandNames(styleId: string): Option<seq<string>>
  {
    match styleId
    case "dropShadow" => Some(["ドロップシャドウ", "Drop Shadow"])
    case "innerShadow" => Some(["シャドウ(内側)", "シャドウ (内側)", "Inner Shadow"])
    case "outerGlow" => Some(["光彩(外側)", "光彩 (外側)", "Outer Glow"])
    case "innerGlow" => Some(["光彩(内側)", "光彩 (内側)", "Inner Glow"])
    case "bevelEmboss" => Some(["ベベルとエンボス", "Bevel and Emboss"])
    case "chromeFX" => Some(["サテン", "Satin"])
    case "solidFill" => Some(["カラーオーバーレイ", "Color Overlay"])
    case "gradientFill" => Some(["グラデーションオーバーレイ", "Gradient Overlay"])
    case "frameFX" => Some(["境界線", "Stroke"])
    case _ => None
  }

  const BlendModes: seq<BlendModeEntry> := [
    BlendModeEntry("通常", 1),
    BlendModeEntry("ﾃﾞｨｻﾞ", 2),
    BlendModeEntry("比較(暗)", 4),
    BlendModeEntry("乗算", 5),
    BlendModeEntry("焼込ｶﾗｰ", 6),
    BlendModeEntry("焼込ﾘﾆｱ", 7),
    BlendModeEntry("ｶﾗｰ比較(暗)", 8),
    BlendModeEntry("比較(明)", 10),
    BlendModeEntry("ｽｸﾘｰﾝ", 11),
    BlendModeEntry("覆焼ｶﾗｰ", 12),
    BlendModeEntry("覆焼ﾘﾆｱ", 13),
    BlendModeEntry("ｶﾗｰ比較(明)", 14),
    BlendModeEntry("ｵｰﾊﾞｰﾚｲ", 16),
    BlendModeEntry("ｿﾌﾄﾗｲﾄ", 17),
    BlendModeEntry("ﾊｰﾄﾞﾗｲﾄ", 18),
    BlendModeEntry("ﾋﾞﾋﾞｯﾄﾞ", 19),
    BlendModeEntry("ﾘﾆｱﾗｲﾄ", 20),
    BlendModeEntry("ﾋﾟﾝﾗｲﾄ", 21),
    BlendModeEntry("ﾊｰﾄﾞﾐｯｸｽ", 22),
    BlendModeEntry("差", 24),
    BlendModeEntry("除外", 25),
    BlendModeEntry("色相", 27),
    BlendModeEntry("彩度", 28),
    BlendModeEntry("ｶﾗｰ", 29),
    BlendModeEntry("輝度", 30)
  ]

  /** The selector's option names: the blend-mode table's names, position by position. */
  function BlendModeNames(): (names: seq<string>)
    ensures |names| == |BlendModes|
    ensures forall i :: 0 <= i < |BlendModes| ==> names[i] == BlendModes[i].name
  {
    seq(|BlendModes|, i requires 0 <= i < |BlendModes| => BlendModes[i].name)
  }

  const BlendKeys: CandidateKeys := KeyList(["blendMode2", "blendMode"])

  /** The property rows a style shows, in order; `None` for a style the table
      does not list. */
  function StylePropDefs(styleId: string): Option<seq<PropDef>>
  {
    match styleId
    case "dropShadow" => Some([
        PropDef("描画モード", BlendKeys, BlendModeKind),
        PropDef("不透明度", OneKey("Opacity"), NumberKind),
        PropDef("角度", OneKey("Angle"), NumberKind),
        PropDef("距離", OneKey("Distance"), NumberKind),
        PropDef("スプレッド", OneKey("ChokeMatte"), NumberKind),
        PropDef("サイズ", OneKey("Blur"), NumberKind),
        PropDef("ノイズ", OneKey("Noise"), NumberKind),
        PropDef("カラー", OneKey("Color"), ColorKind)])
    case "innerShadow" => Some([
        PropDef("描画モード", BlendKeys, BlendModeKind),
        PropDef("不透明度", OneKey("Opacity"), NumberKind),
        PropDef("角度", OneKey("Angle"), NumberKind),
        PropDef("距離", OneKey("Distance"), NumberKind),
        PropDef("チョーク", OneKey("ChokeMatte"), NumberKind),
        PropDef("サイズ", OneKey("Blur"), NumberKind),
        PropDef("ノイズ", OneKey("Noise"), NumberKind),
        PropDef("カラー", OneKey("Color"), ColorKind)])
    case "outerGlow" => Some([
        PropDef("描画モード", BlendKeys, BlendModeKind),
        PropDef("不透明度", OneKey("Opacity"), NumberKind),
        PropDef("ノイズ", OneKey("Noise"), NumberKind),
        PropDef("カラー", OneKey("Color"), ColorKind),
        PropDef("スプレッド", OneKey("ChokeMatte"), NumberKind),
        PropDef("サイズ", OneKey("Blur"), NumberKind),
        PropDef("範囲", OneKey("Range"), NumberKind),
        PropDef("ジッター", KeyList(["Shading Noise", "Jitter"]), NumberKind)])
    case "innerGlow" => Some([
        PropDef("描画モード", BlendKeys, BlendModeKind),
        PropDef("不透明度", OneKey("Opacity"), NumberKind),
        PropDef("ノイズ", OneKey("Noise"), NumberKind),
        PropDef("カラー", OneKey("Color"), ColorKind),
        PropDef("チョーク", OneKey("ChokeMatte"), NumberKind),
        PropDef("サイズ", OneKey("Blur"), NumberKind),
        PropDef("範囲", OneKey("Range"), NumberKind),
        PropDef("ジッター", KeyList(["Shading Noise", "Jitter"]), NumberKind)])
    case "bevelEmboss" => Some([
        PropDef("深さ", OneKey("Strength Ratio"), NumberKind),
        PropDef("サイズ", OneKey("Blur"), NumberKind),
        PropDef("角度", OneKey("Angle"), NumberKind),
        PropDef("Hモード", OneKey("highlightMode"), BlendModeKind),
        PropDef("H不透明度", OneKey("highlightOpacity"), NumberKind),
        PropDef("Hカラー", OneKey("highlightColor"), ColorKind),
        PropDef("Sモード", OneKey("shadowMode"), BlendModeKind),
        PropDef("S不透明度", OneKey("shadowOpacity"), NumberKind),
        PropDef("Sカラー", OneKey("shadowColor"), ColorKind)])
    case "chromeFX" => Some([
        PropDef("描画モード", BlendKeys, BlendModeKind),
        PropDef("不透明度", OneKey("Opacity"), NumberKind),
        PropDef("角度", OneKey("Angle"), NumberKind),
        PropDef("距離", OneKey("Distance"), NumberKind),
        PropDef("サイズ", OneKey("Blur"), NumberKind),
        PropDef("反転(0/1)", OneKey("Invert"), BooleanKind),
        PropDef("カラー", OneKey("Color"), ColorKind)])
    case "solidFill" => Some([
        PropDef("描画モード", BlendKeys, BlendModeKind),
        PropDef("不透明度", OneKey("Opacity"), NumberKind),
        PropDef("カラー", OneKey("Color"), ColorKind)])
    case "gradientFill" => Some([
        PropDef("描画モード", BlendKeys, BlendModeKind),
        PropDef("不透明度", OneKey("Opacity"), NumberKind),
        PropDef("角度", OneKey("Angle"), NumberKind),
        PropDef("スケール", OneKey("Scale"), NumberKind)])
    case "frameFX" => Some([
        PropDef("描画モード", BlendKeys, BlendModeKind),
        PropDef("位置(外1/内2/中3)", KeyList(["Position", "Style"]), NumberKind),
        PropDef("サイズ", OneKey("Size"), NumberKind),
        PropDef("不透明度", OneKey("Opacity"), NumberKind),
        PropDef("カラー", OneKey("Color"), ColorKind)])
    case _ => None
  }

  /** `typeof def.key === "string" ? [def.key] : def.key`. */
  function KeySuffixes(k: CandidateKeys): seq<string>
  {
    match k
    case OneKey(s) => [s]
    case KeyList(l) => l
  }

  /** Ids of every catalog style except the whole-stack entry, written out
      (`NonMasterIdsAreButtons` and `NonMasterIdButton` tie them to the catalog). */
  function NonMasterIds(): set<string>
  {
    {"innerShadow", "bevelEmboss", "dropShadow", "outerGlow", "innerGlow",
     "chromeFX", "solidFill", "gradientFill", "frameFX"}
  }

  function ActionName(a: KeyframeAction): string
  {
    match a
    case Add => "add"
    case Remove => "remove"
    case Prev => "prev"
    case Next => "next"
    case HoldAll => "hold_all"
  }

  /** The host's `action === "add"` / `"remove"` / ... chain; any other string selects no branch. */
  function ParseAction(s: string): (r: Option<KeyframeAction>)
    ensures r.Some? ==> ActionName(r.value) == s
  {
    if s == "add" then Some(Add)
    else if s == "remove" then Some(Remove)
    else if s == "prev" then Some(Prev)
    else if s == "next" then Some(Next)
    else if s == "hold_all" then Some(HoldAll)
    else None
  }

  /** The action type is exactly the five names the host recognises. */
  lemma ActionNamesRoundTrip(a: KeyframeAction)
    ensures ParseAction(ActionName(a)) == Some(a)
  {
  }

  /** Ten buttons with distinct ids; the whole-stack entry comes last, has
      no legacy command and matches the style group itself. */
  lemma StyleButtonsShape()
    ensures |StyleButtons| == 10
    ensures forall i, j :: 0 <= i < j < |StyleButtons| ==> StyleButtons[i].id != StyleButtons[j].id
    ensures StyleButtons[9].id == MasterStyleId && StyleButtons[9].cmdId == None
    ensures StyleButtons[9].matchName == StyleButtons[9].fallback == "ADBE Layer Styles"
    ensures forall i :: 0 <= i < 9 ==> StyleButtons[i].id != MasterStyleId && StyleButtons[i].cmdId.Some? && StyleButtons[i].cmdId.value != 0
  {
  }

  /** Each of the first nine entries has a non-zero legacy command id. */
  lemma LegacyCommandAt(i: nat)
    requires i < 9
    ensures StyleButtons[i].cmdId.Some? && StyleButtons[i].cmdId.value != 0
  {
  }

  /** A catalog entry's id is a non-master id exactly when it is not the whole-stack entry. */
  lemma NonMasterIdsAreButtons(i: nat)
    requires i < |StyleButtons|
    ensures StyleButtons[i].id in NonMasterIds() <==> StyleButtons[i].id != MasterStyleId
  {
  }

  /** Every non-master id belongs to one of the first nine catalog entries. */
  lemma NonMasterIdButton(id: string)
    requires id in NonMasterIds()
    ensures exists i :: 0 <= i < 9 && StyleButtons[i].id == id
  {
    var i := if id == "innerShadow" then 0 else if id == "bevelEmboss" then 1
      else if id == "dropShadow" then 2 else if id == "outerGlow" then 3
      else if id == "innerGlow" then 4 else if id == "chromeFX" then 5
      else if id == "solidFill" then 6 else if id == "gradientFill" then 7 else 8;
    assert StyleButtons[i].id == id;
  }

  /** The menu table names exactly the nine non-master styles. */
  lemma MenuCommandNamesCoverNonMaster()
    ensures forall id :: MenuCommandNames(id).Some? <==> id in NonMasterIds()
  {
  }

  /** Each style the menu table lists has at least one name to try. */
  lemma MenuCommandNamesNonEmpty(id: string)
    ensures MenuCommandNames(id).Some? ==> |MenuCommandNames(id).value| > 0
  {
  }

  /** Every non-master style has a definition list; the whole stack has none. */
  lemma PropDefsCoverNonMaster()
    ensures forall id :: StylePropDefs(id).Some? <==> id in NonMasterIds()
  {
  }

  /** Every definition offers at least one candidate key. */
  lemma EveryPropDefHasCandidate(id: string, i: nat)
    requires StylePropDefs(id).Some? && i < |StylePropDefs(id).value|
    ensures |KeySuffixes(StylePropDefs(id).value[i].key)| >= 1
  {
  }

  /** Blend codes strictly increase along the table, so each code has one position. */
  lemma BlendModesIncreasing()
    ensures forall i, j :: 0 <= i < j < |BlendModes| ==> BlendModes[i].val < BlendModes[j].val
  {
  }
}
