/** `getLayerStyleState`: the snapshot the panel polls. Each part is given
    twice: as a function saying what the part is, and as the loop the host
    script runs to build it, proved to produce exactly that. */
module AeftSnapshot {
  import opened Common
  import opened LayerStyleTypes
  import opened HostModel
  import opened AeftLookups

  /** `Math.round(x * 10) / 10`. */
  function Round1(x: real): real
  {
    (Round(x * 10.0) as real) / 10.0
  }

  /** Rounding to one decimal moves a number by at most a twentieth, and the
      result has at most one decimal. */
  lemma Round1Close(x: real)
    ensures Abs(Round1(x) - x) <= 0.05
    ensures (Round1(x) * 10.0).Floor as real == Round1(x) * 10.0
  {
    var n := Round(x * 10.0);
    assert n as real <= x * 10.0 + 0.5 < n as real + 1.0;
    assert Round1(x) * 10.0 == n as real;
  }

  /** JavaScript truthiness of a host value (every array is truthy). */
  function Truthy(v: Value): bool
  {
    match v
    case Num(x) => x != 0.0
    case Bool(b) => b
    case Vec(_) => true
  }

  /** The three colour components the panel receives. */
  function ColorComponents(v: Value): seq<real>
  {
    if v.Vec? && |v.xs| >= 3 then v.xs[..3] else []
  }

  /** The per-kind conversion of a property value; `None` for a value whose
      shape does not fit its kind. */
  function PropValue(kind: ValueKind, v: Value): (r: Option<Value>)
    ensures kind == ColorKind ==> (r.Some? <==> v.Vec? && |v.xs| >= 3)
    ensures kind == ColorKind && r.Some? ==>
      (r.value.Vec? && |r.value.xs| == 3 && forall i :: 0 <= i < 3 ==> r.value.xs[i] == v.xs[i])
    ensures kind == BooleanKind ==> r == Some(Bool(Truthy(v)))
    ensures kind == BlendModeKind ==> r == Some(v)
    ensures kind == NumberKind ==> (r.None? <==> v.Vec?)
    ensures kind == NumberKind && v.Num? ==> r == Some(Num(Round1(v.x)))
    ensures kind == NumberKind && v.Bool? ==> r == Some(Num(if v.b then 1.0 else 0.0))
  {
    match kind
    case ColorKind => if v.Vec? && |v.xs| >= 3 then Some(Vec(ColorComponents(v))) else None
    case BooleanKind => Some(Bool(Truthy(v)))
    case BlendModeKind => Some(v)
    case NumberKind =>
      match v
      case Num(x) => Some(Num(Round1(x)))
      case Bool(b) => Some(Num(if b then 1.0 else 0.0))
      case Vec(_) => None
  }

  /** The style the snapshot reports, with the group it resolved to. */
  datatype Selection = Selection(styleId: string, target: Option<StyleTarget>)

  /** The style exists in the stack and is switched on. */
  predicate PresentEnabled(s: StyleStack, d: StyleButtonDef)
  {
    var p := GetStyleGroupProp(s, d);
    p.Some? && TargetEnabled(s, p.value)
  }

  /** A candidate for auto-correction: a non-master style that is present and enabled. */
  predicate Eligible(s: StyleStack, d: StyleButtonDef)
  {
    d.id != MasterStyleId && PresentEnabled(s, d)
  }

  /** The requested style needs replacing: it is unknown, absent, or disabled and not the master entry. */
  predicate NeedsCorrection(s: StyleStack, styleId: string)
  {
    var def := FindStyleDef(styleId);
    def.None? || !(def.value.id == MasterStyleId || PresentEnabled(s, def.value))
  }

  /** The requested style's group, if the catalog knows the id and the stack has that style. */
  function RequestedTarget(s: StyleStack, styleId: string): (r: Option<StyleTarget>)
    ensures r.Some? ==> ValidTarget(s, r.value)
  {
    var def := FindStyleDef(styleId);
    if def.Some? then GetStyleGroupProp(s, def.value) else None
  }

  /** Auto-correction: keep the requested style unless it needs replacing; then
      take the first eligible catalog style, or keep the request when none is. */
  function SelectStyle(styles: Option<StyleStack>, styleId: string): (r: Selection)
    ensures styles.Some? && r.target.Some? ==> ValidTarget(styles.value, r.target.value)
  {
    match styles
    case None => Selection(styleId, None)
    case Some(s) =>
      var cur := RequestedTarget(s, styleId);
      if NeedsCorrection(s, styleId) then
        match FirstWhere(StyleButtons, (d: StyleButtonDef) => Eligible(s, d))
        case Some(i) => Selection(StyleButtons[i].id, GetStyleGroupProp(s, StyleButtons[i]))
        case None => Selection(styleId, cur)
      else Selection(styleId, cur)
  }

  /** The auto-correction loop: skip the master entry, stop at the first
      entry whose style is present and enabled. */
  method FirstEligible(s: StyleStack, buttons: seq<StyleButtonDef>) returns (r: Option<nat>)
    ensures r.Some? ==> r.value < |buttons| && Eligible(s, buttons[r.value])
    ensures r == FirstWhere(buttons, (d: StyleButtonDef) => Eligible(s, d))
  {
    r := None;
    var i := 0;
    while i < |buttons|
      invariant 0 <= i <= |buttons|
      invariant forall j :: 0 <= j < i ==> !Eligible(s, buttons[j])
    {
      if buttons[i].id != MasterStyleId {
        var p := GetStyleGroupProp(s, buttons[i]);
        if p.Some? && TargetEnabled(s, p.value) {
          r := Some(i);
          FirstWhereIs(buttons, (d: StyleButtonDef) => Eligible(s, d), i);
          return;
        }
      }
      i := i + 1;
    }
  }

  /** The auto-correction step of `getLayerStyleState`. */
  method AutoCorrect(s: StyleStack, styleId: string) returns (sel: Selection)
    ensures sel == SelectStyle(Some(s), styleId)
  {
    sel := Selection(styleId, RequestedTarget(s, styleId));
    if NeedsCorrection(s, styleId) {
      var found := FirstEligible(s, StyleButtons);
      if found.Some? {
        var b := StyleButtons[found.value];
        sel := Selection(b.id, GetStyleGroupProp(s, b));
      }
    }
  }

  /** The reported style: with no style stack, or when the request is fine, the
      request itself; otherwise the first eligible catalog style, whose group
      is then enabled; and when no style is eligible, the request again. */
  lemma SelectStyleMeaning(styles: Option<StyleStack>, styleId: string)
    ensures styles.None? ==> SelectStyle(styles, styleId).styleId == styleId
    ensures styles.Some? && !NeedsCorrection(styles.value, styleId) ==> SelectStyle(styles, styleId).styleId == styleId
    ensures styles.Some? && NeedsCorrection(styles.value, styleId) ==>
      var r := SelectStyle(styles, styleId);
      if exists i :: 0 <= i < |StyleButtons| && Eligible(styles.value, StyleButtons[i])
      then exists i :: 0 <= i < |StyleButtons| && Eligible(styles.value, StyleButtons[i]) &&
             r.styleId == StyleButtons[i].id && r.target.Some? && TargetEnabled(styles.value, r.target.value) &&
             forall j :: 0 <= j < i ==> !Eligible(styles.value, StyleButtons[j])
      else r.styleId == styleId
  {
    if styles.Some? && NeedsCorrection(styles.value, styleId) {
      var s := styles.value;
      var f := FirstWhere(StyleButtons, (d: StyleButtonDef) => Eligible(s, d));
      if f.Some? {
        var i := f.value;
        assert Eligible(s, StyleButtons[i]);
        assert SelectStyle(styles, styleId) == Selection(StyleButtons[i].id, GetStyleGroupProp(s, StyleButtons[i]));
      } else {
        assert SelectStyle(styles, styleId).styleId == styleId;
      }
    }
  }

  /** Auto-correction settles in one step: asking again with the reported
      style gives the same answer, so a panel that adopts the reported style
      sees no further correction while the layer stays as it is. */
  lemma SelectStyleStable(styles: Option<StyleStack>, styleId: string)
    ensures SelectStyle(styles, SelectStyle(styles, styleId).styleId) == SelectStyle(styles, styleId)
  {
    if styles.Some? && NeedsCorrection(styles.value, styleId) {
      var s := styles.value;
      var f := FirstWhere(StyleButtons, (d: StyleButtonDef) => Eligible(s, d));
      if f.Some? {
        var i := f.value;
        FindStyleDefAt(i);
        assert SelectStyle(styles, styleId) == Selection(StyleButtons[i].id, GetStyleGroupProp(s, StyleButtons[i]));
        assert !NeedsCorrection(s, StyleButtons[i].id);
      }
    }
  }

  /** One button's nav entry: the master entry counts as enabled whenever it exists. */
  function NavEntry(styles: Option<StyleStack>, d: StyleButtonDef): StyleNavState
  {
    var sp := if styles.Some? then GetStyleGroupProp(styles.value, d) else None;
    var existing := sp.Some?;
    var enabled := if d.id == MasterStyleId then existing else sp.Some? && TargetEnabled(styles.value, sp.value);
    StyleNavState(d.id, existing, enabled)
  }

  /** The nav vector: one entry per catalog button, in catalog order. */
  function NavStates(styles: Option<StyleStack>): seq<StyleNavState>
  {
    seq(|StyleButtons|, i requires 0 <= i < |StyleButtons| => NavEntry(styles, StyleButtons[i]))
  }

  /** The loop that builds the nav vector. */
  method BuildNav(styles: Option<StyleStack>) returns (nav: seq<StyleNavState>)
    ensures nav == NavStates(styles)
  {
    nav := [];
    var i := 0;
    while i < |StyleButtons|
      invariant 0 <= i <= |StyleButtons|
      invariant nav == NavStates(styles)[..i]
    {
      var sb := StyleButtons[i];
      var sp := if styles.Some? then GetStyleGroupProp(styles.value, sb) else None;
      var existing := sp.Some?;
      var enabled := false;
      if sb.id == MasterStyleId {
        enabled := existing;
      } else if sp.Some? {
        enabled := TargetEnabled(styles.value, sp.value);
      }
      nav := nav + [StyleNavState(sb.id, existing, enabled)];
      i := i + 1;
    }
  }

  /** Each entry reports its button's id; only an existing style can be
      enabled; with a style stack the master entry exists and is enabled; and
      a non-master entry is enabled exactly when its style is present and on. */
  lemma NavStatesMeaning(styles: Option<StyleStack>)
    ensures |NavStates(styles)| == |StyleButtons|
    ensures forall i :: 0 <= i < |StyleButtons| ==> NavStates(styles)[i].id == StyleButtons[i].id
    ensures forall i :: 0 <= i < |StyleButtons| ==> NavStates(styles)[i].isEnabled ==> NavStates(styles)[i].isExisting
    ensures forall i :: 0 <= i < |StyleButtons| && StyleButtons[i].id == MasterStyleId ==>
      NavStates(styles)[i].isExisting == NavStates(styles)[i].isEnabled == styles.Some?
    ensures forall i :: 0 <= i < |StyleButtons| && StyleButtons[i].id != MasterStyleId ==>
      (NavStates(styles)[i].isEnabled <==> styles.Some? && PresentEnabled(styles.value, StyleButtons[i]))
  {
  }

  /** One definition's row, or `None` when it does not resolve. */
  function PropEntry(ps: seq<Prop>, def: PropDef, t: real): Option<PropState>
  {
    match FindPropInGroup(ps, KeySuffixes(def.key))
    case None => None
    case Some(j) =>
      var p := ps[j];
      match PropValue(def.kind, p.value)
      case None => None
      case Some(v) =>
        var ki := GetKeyframeInfo(p, t);
        Some(PropState(def.caption, def.kind, v, p.canVary, |p.keys|, ki.onKey, ki.hasPrev, ki.hasNext))
  }

  /** The row a definition contributes: none or one. */
  function RowOf(ps: seq<Prop>, def: PropDef, t: real): seq<PropState>
  {
    match PropEntry(ps, def, t)
    case None => []
    case Some(e) => [e]
  }

  /** The rows, in definition order, skipping definitions that do not resolve. */
  function PropStates(ps: seq<Prop>, defs: seq<PropDef>, t: real): seq<PropState>
  {
    if defs == [] then [] else RowOf(ps, defs[0], t) + PropStates(ps, defs[1..], t)
  }

  /** The rows of the snapshot: only for a style with definitions whose group
      was found and is enabled. */
  function SnapshotProps(styles: Option<StyleStack>, sel: Selection, t: real): seq<PropState>
  {
    if styles.Some? && StylePropDefs(sel.styleId).Some? && sel.target.Some? &&
       ValidTarget(styles.value, sel.target.value) && TargetEnabled(styles.value, sel.target.value)
    then PropStates(TargetProps(styles.value, sel.target.value), StylePropDefs(sel.styleId).value, t)
    else []
  }

  /** One pass of the row loop: resolve the definition, convert its value and
      read its keyframe flags; no row when the definition does not resolve. */
  method ResolveRow(ps: seq<Prop>, def: PropDef, t: real) returns (row: seq<PropState>)
    ensures row == RowOf(ps, def, t)
    ensures |row| <= 1
  {
    row := [];
    var found := FindPropInGroup(ps, KeySuffixes(def.key));
    if found.Some? {
      var prop := ps[found.value];
      var conv := PropValue(def.kind, prop.value);
      if conv.Some? {
        var ki := GetKeyframeInfo(prop, t);
        row := [PropState(def.caption, def.kind, conv.value, prop.canVary, |prop.keys|,
                          ki.onKey, ki.hasPrev, ki.hasNext)];
      }
    }
  }

  /** The loop that builds the rows. */
  method BuildProps(ps: seq<Prop>, defs: seq<PropDef>, t: real) returns (rows: seq<PropState>)
    ensures rows == PropStates(ps, defs, t)
  {
    rows := [];
    var di := 0;
    while di < |defs|
      invariant 0 <= di <= |defs|
      invariant rows + PropStates(ps, defs[di..], t) == PropStates(ps, defs, t)
    {
      assert PropStates(ps, defs[di..], t) == RowOf(ps, defs[di], t) + PropStates(ps, defs[di + 1..], t) by {
        assert defs[di..][1..] == defs[di + 1..];
      }
      var row := ResolveRow(ps, defs[di], t);
      assert (rows + row) + PropStates(ps, defs[di + 1..], t) == rows + (row + PropStates(ps, defs[di + 1..], t));
      rows := rows + row;
      di := di + 1;
    }
    assert defs[|defs|..] == [];
  }

  /** Rows never outnumber definitions; when every definition resolves there is
      one row per definition, at the same position. */
  lemma {:induction false} PropStatesOrder(ps: seq<Prop>, defs: seq<PropDef>, t: real)
    ensures |PropStates(ps, defs, t)| <= |defs|
    ensures (forall i :: 0 <= i < |defs| ==> PropEntry(ps, defs[i], t).Some?) ==>
      |PropStates(ps, defs, t)| == |defs| &&
      forall i :: 0 <= i < |defs| ==> PropStates(ps, defs, t)[i] == PropEntry(ps, defs[i], t).value
  {
    if defs != [] {
      PropStatesOrder(ps, defs[1..], t);
      if forall i :: 0 <= i < |defs| ==> PropEntry(ps, defs[i], t).Some? {
        assert forall i :: 0 <= i < |defs[1..]| ==> defs[1..][i] == defs[i + 1];
        var r := PropStates(ps, defs, t);
        assert r == [PropEntry(ps, defs[0], t).value] + PropStates(ps, defs[1..], t);
        forall i | 0 <= i < |defs| ensures r[i] == PropEntry(ps, defs[i], t).value {
          if i > 0 { assert r[i] == PropStates(ps, defs[1..], t)[i - 1]; }
        }
      }
    }
  }

  /** A row has the shape its kind promises: three colour components, a
      boolean, or a number with at most one decimal. */
  predicate RowShaped(row: PropState)
  {
    (row.kind == ColorKind ==> row.value.Vec? && |row.value.xs| == 3) &&
    (row.kind == BooleanKind ==> row.value.Bool?) &&
    (row.kind == NumberKind ==> row.value.Num? && (row.value.x * 10.0).Floor as real == row.value.x * 10.0)
  }

  lemma RowOfShaped(ps: seq<Prop>, def: PropDef, t: real)
    ensures forall row :: row in RowOf(ps, def, t) ==>
      RowShaped(row) && row.caption == def.caption && row.kind == def.kind
  {
    match FindPropInGroup(ps, KeySuffixes(def.key))
    case None =>
    case Some(j) =>
      var v := ps[j].value;
      if def.kind == NumberKind && v.Num? {
        Round1Close(v.x);
      }
  }

  /** A definition gives a row exactly when `findPropInGroup` finds its
      property and the value converts; the row then carries the converted
      value, the property's variability and key count, and its keyframe flags
      at `t`. */
  lemma RowOfMeaning(ps: seq<Prop>, def: PropDef, t: real)
    ensures var j := FindPropInGroup(ps, KeySuffixes(def.key));
      |RowOf(ps, def, t)| == 1 <==> j.Some? && PropValue(def.kind, ps[j.value].value).Some?
    ensures var j := FindPropInGroup(ps, KeySuffixes(def.key));
      j.None? || PropValue(def.kind, ps[j.value].value).None? ==> RowOf(ps, def, t) == []
    ensures forall row :: row in RowOf(ps, def, t) ==>
      var j := FindPropInGroup(ps, KeySuffixes(def.key)).value;
      var ki := GetKeyframeInfo(ps[j], t);
      row.value == PropValue(def.kind, ps[j].value).value &&
      row.canVaryOverTime == ps[j].canVary && row.numKeys == |ps[j].keys| &&
      row.onKeyframe == ki.onKey && row.hasPrev == ki.hasPrev && row.hasNext == ki.hasNext
  {
  }

  /** Every row is well shaped and carries the caption and kind of one of the definitions. */
  lemma {:induction false} PropStatesKinds(ps: seq<Prop>, defs: seq<PropDef>, t: real)
    ensures forall row :: row in PropStates(ps, defs, t) ==>
      RowShaped(row) && exists d :: d in defs && d.caption == row.caption && d.kind == row.kind
  {
    if defs != [] {
      PropStatesKinds(ps, defs[1..], t);
      RowOfShaped(ps, defs[0], t);
      forall row | row in PropStates(ps, defs, t)
        ensures RowShaped(row) && exists d :: d in defs && d.caption == row.caption && d.kind == row.kind
      {
        if row in RowOf(ps, defs[0], t) {
          assert defs[0] in defs;
        } else {
          var d :| d in defs[1..] && d.caption == row.caption && d.kind == row.kind;
          assert d in defs;
        }
      }
    }
  }

  /** A definition that does not resolve moves the next one's row into its position. */
  lemma SkippedDefinitionShiftsRows(ps: seq<Prop>, defs: seq<PropDef>, t: real)
    requires |defs| >= 2 && PropEntry(ps, defs[0], t).None? && PropEntry(ps, defs[1], t).Some?
    ensures |PropStates(ps, defs, t)| >= 1 && PropStates(ps, defs, t)[0] == PropEntry(ps, defs[1], t).value
  {
    assert PropStates(ps, defs, t) == PropStates(ps, defs[1..], t);
    assert defs[1..][0] == defs[1];
    assert PropStates(ps, defs[1..], t) == [PropEntry(ps, defs[1], t).value] + PropStates(ps, defs[2..], t) by {
      assert defs[1..][1..] == defs[2..];
    }
  }

  /** The first two drop-shadow definitions: blend mode, then opacity. */
  lemma DropShadowHead()
    ensures StylePropDefs("dropShadow").Some? && |StylePropDefs("dropShadow").value| >= 2
    ensures StylePropDefs("dropShadow").value[0] == PropDef("描画モード", BlendKeys, BlendModeKind)
    ensures StylePropDefs("dropShadow").value[1] == PropDef("不透明度", OneKey("Opacity"), NumberKind)
  {
  }

  /** The positions of rows and definitions can disagree: for a drop shadow
      whose only property is its opacity, the panel's first row is the opacity,
      while the first definition is the blend mode. A row index sent back to
      the host then names a different definition. */
  lemma IndexMismatch()
    ensures var ps := [Prop("Opacity", "Opacity", OneD, Num(75.0), true, [])];
      var rows := PropStates(ps, StylePropDefs("dropShadow").value, 0.0);
      |rows| >= 1 && rows[0].caption == "不透明度" && StylePropDefs("dropShadow").value[0].caption == "描画モード"
  {
    DropShadowHead();
    OpacityOnlyRows(StylePropDefs("dropShadow").value);
  }

  /** For any definitions that start with the blend mode and then the
      opacity, a property list holding only the opacity yields the opacity as
      its first row. */
  lemma OpacityOnlyRows(defs: seq<PropDef>)
    requires |defs| >= 2
    requires defs[0] == PropDef("描画モード", BlendKeys, BlendModeKind)
    requires defs[1] == PropDef("不透明度", OneKey("Opacity"), NumberKind)
    ensures var rows := PropStates([Prop("Opacity", "Opacity", OneD, Num(75.0), true, [])], defs, 0.0);
      |rows| >= 1 && rows[0].caption == "不透明度"
  {
    var ps := [Prop("Opacity", "Opacity", OneD, Num(75.0), true, [])];
    FindPropInGroupMeaning(ps, ["blendMode2", "blendMode"]);
    assert |Lower(ps[0].name)| < |Lower("blendMode")|;
    assert PropEntry(ps, defs[0], 0.0).None?;
    assert FindByKey(ps, "Opacity") == Some(0);
    assert PropEntry(ps, defs[1], 0.0).Some?;
    SkippedDefinitionShiftsRows(ps, defs, 0.0);
  }

  /** The whole-stack entry never has rows. */
  lemma MasterHasNoProps(styles: Option<StyleStack>, sel: Selection, t: real)
    requires sel.styleId == MasterStyleId
    ensures SnapshotProps(styles, sel, t) == []
  {
    assert StylePropDefs(MasterStyleId).None?;
  }

  /** Most colour slots the snapshot reports. */
  const MaxPColors: nat := 8

  /** The colour-selection effect: the first effect answering to
      `P_ColorSelection`; when there is none, the first answering to
      `ColorSelection`; when there is neither, none. */
  function PColorEffect(effects: Option<seq<Effect>>): (r: Option<Effect>)
    ensures r.Some? ==> effects.Some? && r.value in effects.value
    ensures r.Some? ==>
      (exists i :: 0 <= i < |effects.value| && r.value == effects.value[i] &&
        (FirstEffectIs(effects.value, i, "P_ColorSelection") ||
         (NoEffectIs(effects.value, "P_ColorSelection") && FirstEffectIs(effects.value, i, "ColorSelection"))))
    ensures r.None? <==>
      (effects.None? || (NoEffectIs(effects.value, "P_ColorSelection") && NoEffectIs(effects.value, "ColorSelection")))
  {
    match effects
    case None => None
    case Some(fx) =>
      match EffectNamed(fx, "P_ColorSelection")
      case Some(i) => Some(fx[i])
      case None =>
        match EffectNamed(fx, "ColorSelection")
        case Some(i) => Some(fx[i])
        case None => None
  }

  /** The slot at 1-based parameter `pi` is off when the parameter just before it
      is a one-dimensional switch reading 0 or false. */
  predicate SlotDisabled(params: seq<Prop>, pi: int)
    requires 1 <= pi <= |params|
  {
    pi > 1 && params[pi - 2].valueType == OneD &&
    (params[pi - 2].value == Num(0.0) || params[pi - 2].value == Bool(false))
  }

  function Slot(e: Effect, pi: int): PColorState
    requires 1 <= pi <= |e.params|
  {
    PColorState(ColorComponents(e.params[pi - 1].value), SlotDisabled(e.params, pi), e.name, pi, pi - 1)
  }

  /** The slots from parameter `pi` on, given that `taken` slots are already reported. */
  function PColorSlots(e: Effect, pi: nat, taken: nat): seq<PColorState>
    requires pi >= 1
    decreases |e.params| + 1 - pi
  {
    if pi > |e.params| || taken >= MaxPColors then []
    else if e.params[pi - 1].valueType == ColorType then [Slot(e, pi)] + PColorSlots(e, pi + 1, taken + 1)
    else PColorSlots(e, pi + 1, taken)
  }

  function PColors(effects: Option<seq<Effect>>): seq<PColorState>
  {
    match PColorEffect(effects)
    case None => []
    case Some(e) => PColorSlots(e, 1, 0)
  }

  /** The loop that collects the colour slots. */
  method BuildPColors(e: Effect) returns (out: seq<PColorState>)
    ensures out == PColorSlots(e, 1, 0)
  {
    out := [];
    var cIdx := 0;
    var pi := 1;
    while pi <= |e.params| && cIdx < MaxPColors
      invariant 1 <= pi <= |e.params| + 1
      invariant cIdx == |out|
      invariant out + PColorSlots(e, pi, cIdx) == PColorSlots(e, 1, 0)
      decreases |e.params| + 1 - pi
    {
      if e.params[pi - 1].valueType == ColorType {
        var isDisabled := false;
        var enableIdx := pi - 1;
        if pi > 1 && e.params[pi - 2].valueType == OneD {
          isDisabled := e.params[pi - 2].value == Num(0.0) || e.params[pi - 2].value == Bool(false);
        }
        out := out + [PColorState(ColorComponents(e.params[pi - 1].value), isDisabled, e.name, pi, enableIdx)];
        cIdx := cIdx + 1;
      }
      pi := pi + 1;
    }
  }

  /** Parameter `q` (1-based) holds a colour. */
  predicate ColorParamAt(params: seq<Prop>, q: int)
  {
    1 <= q <= |params| && params[q - 1].valueType == ColorType
  }

  /** At most eight slots in all. */
  lemma {:induction false} PColorSlotsCount(e: Effect, pi: nat, taken: nat)
    requires pi >= 1 && taken <= MaxPColors
    ensures taken + |PColorSlots(e, pi, taken)| <= MaxPColors
    decreases |e.params| + 1 - pi
  {
    if pi <= |e.params| && taken < MaxPColors {
      if e.params[pi - 1].valueType == ColorType {
        PColorSlotsCount(e, pi + 1, taken + 1);
      } else {
        PColorSlotsCount(e, pi + 1, taken);
      }
    }
  }

  /** Each slot comes from a colour parameter at or after `pi`, with the switch
      index just before it and the disabled flag of its switch. */
  lemma {:induction false} PColorSlotsEntries(e: Effect, pi: nat, taken: nat)
    requires pi >= 1
    ensures forall c :: c in PColorSlots(e, pi, taken) ==>
      pi <= c.propIdx && ColorParamAt(e.params, c.propIdx) && c.enableIdx == c.propIdx - 1 &&
      c.isDisabled == SlotDisabled(e.params, c.propIdx) && c.effectName == e.name
    decreases |e.params| + 1 - pi
  {
    if pi <= |e.params| && taken < MaxPColors {
      if e.params[pi - 1].valueType == ColorType {
        PColorSlotsEntries(e, pi + 1, taken + 1);
      } else {
        PColorSlotsEntries(e, pi + 1, taken);
      }
    }
  }

  predicate SlotsIncreasing(r: seq<PColorState>)
  {
    forall k, m :: 0 <= k < m < |r| ==> r[k].propIdx < r[m].propIdx
  }

  lemma ConsIncreasing(c: PColorState, rest: seq<PColorState>)
    requires SlotsIncreasing(rest)
    requires forall x :: x in rest ==> c.propIdx < x.propIdx
    ensures SlotsIncreasing([c] + rest)
  {
    var r := [c] + rest;
    forall k, m | 0 <= k < m < |r| ensures r[k].propIdx < r[m].propIdx {
      assert r[m] == rest[m - 1];
      if k > 0 { assert r[k] == rest[k - 1]; }
    }
  }

  /** Slots follow parameter order. */
  lemma {:induction false} PColorSlotsIncreasing(e: Effect, pi: nat, taken: nat)
    requires pi >= 1
    ensures SlotsIncreasing(PColorSlots(e, pi, taken))
    decreases |e.params| + 1 - pi
  {
    if pi <= |e.params| && taken < MaxPColors {
      if e.params[pi - 1].valueType == ColorType {
        PColorSlotsIncreasing(e, pi + 1, taken + 1);
        PColorSlotsEntries(e, pi + 1, taken + 1);
        ConsIncreasing(Slot(e, pi), PColorSlots(e, pi + 1, taken + 1));
      } else {
        PColorSlotsIncreasing(e, pi + 1, taken);
      }
    }
  }

  /** When fewer than eight slots are reported, every colour parameter from `pi` on is among them. */
  lemma {:induction false} PColorSlotsComplete(e: Effect, pi: nat, taken: nat)
    requires pi >= 1
    ensures taken + |PColorSlots(e, pi, taken)| < MaxPColors ==>
      forall q :: pi <= q && ColorParamAt(e.params, q) ==>
        exists c :: c in PColorSlots(e, pi, taken) && c.propIdx == q
    decreases |e.params| + 1 - pi
  {
    if pi <= |e.params| && taken < MaxPColors {
      var r := PColorSlots(e, pi, taken);
      if e.params[pi - 1].valueType == ColorType {
        PColorSlotsComplete(e, pi + 1, taken + 1);
        assert r == [Slot(e, pi)] + PColorSlots(e, pi + 1, taken + 1);
        assert Slot(e, pi) in r;
      } else {
        PColorSlotsComplete(e, pi + 1, taken);
      }
    }
  }

  /** The snapshot when no layer is selected. */
  function EmptyState(styleId: string): PanelState
  {
    PanelState(false, "", styleId, [], None, false, 0, false, false, false, [], [], 0.0, false, "")
  }

  /** `getLayerStyleState(styleId)` for the selected layer (`None`: nothing selected). */
  function Snapshot(comp: Comp, layer: Option<Layer>, styleId: string): PanelState
  {
    match layer
    case None => EmptyState(styleId)
    case Some(l) =>
      var t := comp.time;
      var sel := SelectStyle(l.styles, styleId);
      var fill := if l.styles.Some? then l.styles.value.fillOpacity else None;
      var fki := if fill.Some? then GetKeyframeInfo(fill.value, t) else KeyInfo(false, false, false);
      PanelState(
        true, l.name, sel.styleId, NavStates(l.styles),
        if fill.Some? then PropValue(NumberKind, fill.value.value) else None,
        fill.Some? && fill.value.canVary,
        if fill.Some? then |fill.value.keys| else 0,
        fki.onKey, fki.hasPrev, fki.hasNext,
        SnapshotProps(l.styles, sel, t),
        PColors(l.effects),
        t, l.solo, GetLayerHash(comp.id, l))
  }

  /** The host function itself, assembled from the loops above. */
  method GetLayerStyleState(comp: Comp, layer: Option<Layer>, styleId: string) returns (st: PanelState)
    ensures st == Snapshot(comp, layer, styleId)
  {
    if layer.None? {
      return EmptyState(styleId);
    }
    var l := layer.value;
    var t := comp.time;
    var sel := Selection(styleId, None);
    if l.styles.Some? {
      sel := AutoCorrect(l.styles.value, styleId);
    }
    var nav := BuildNav(l.styles);
    var fill := if l.styles.Some? then l.styles.value.fillOpacity else None;
    var fillOpacity: Option<Value> := None;
    var fillCanVary := false;
    var fillNumKeys := 0;
    var fki := KeyInfo(false, false, false);
    if fill.Some? {
      fillOpacity := PropValue(NumberKind, fill.value.value);
      fillCanVary := fill.value.canVary;
      fillNumKeys := |fill.value.keys|;
      fki := GetKeyframeInfo(fill.value, t);
    }
    var rows: seq<PropState> := [];
    var defs := StylePropDefs(sel.styleId);
    if l.styles.Some? && defs.Some? && sel.target.Some? &&
       TargetEnabled(l.styles.value, sel.target.value) {
      rows := BuildProps(TargetProps(l.styles.value, sel.target.value), defs.value, t);
    }
    var pColors: seq<PColorState> := [];
    var pfx := PColorEffect(l.effects);
    if pfx.Some? {
      pColors := BuildPColors(pfx.value);
    }
    st := PanelState(true, l.name, sel.styleId, nav, fillOpacity, fillCanVary, fillNumKeys,
                     fki.onKey, fki.hasPrev, fki.hasNext, rows, pColors, t, l.solo, GetLayerHash(comp.id, l));
  }

  /** With nothing selected the snapshot is empty and echoes the requested id. */
  lemma NoLayerSnapshot(comp: Comp, styleId: string)
    ensures var st := Snapshot(comp, None, styleId);
      !st.hasLayer && st.styleNav == [] && st.props == [] && st.pColors == [] &&
      st.layerHash == "" && st.currentStyleId == styleId
  {
  }

  /** Polling again with the reported style, while the host is unchanged,
      returns the same snapshot. */
  lemma SnapshotStable(comp: Comp, layer: Option<Layer>, styleId: string)
    ensures Snapshot(comp, layer, Snapshot(comp, layer, styleId).currentStyleId) == Snapshot(comp, layer, styleId)
  {
    if layer.Some? {
      SelectStyleStable(layer.value.styles, styleId);
    }
  }
}
