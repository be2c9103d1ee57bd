/** The host script's mutators. Each is a method of `Host`, which holds what
    the script can see and change: the active comp, the selected layer, the
    undo history and the native commands issued. Each method's postcondition
    gives the new state through one of the edit functions below, and the
    lemmas beside those functions say what an edit does. A `hostThrows`
    argument stands for a host call failing at the write, which the script
    swallows; the only trace that leaves is in the undo history. */
module AeftActions {
  import opened Common
  import opened LayerStyleTypes
  import opened HostModel
  import opened AeftLookups
  import opened AeftSnapshot
  import opened KeyframeOps
  import opened AeftEdits

  /** `app.beginUndoGroup(name)` and `app.endUndoGroup()`. */
  datatype UndoEvent = Begin(name: string) | End

  /** Native commands the script issues: a menu command by id, or Edit > Clear
      with one style target selected. */
  datatype HostCommand = RunCommand(id: int) | ClearSelected(target: StyleTarget)

  /** Undo groups begun and not yet ended. */
  function Depth(log: seq<UndoEvent>): int
  {
    if log == [] then 0
    else Depth(log[..|log| - 1]) + (if log[|log| - 1].End? then -1 else 1)
  }

  lemma {:induction false} DepthAppend(a: seq<UndoEvent>, b: seq<UndoEvent>)
    ensures Depth(a + b) == Depth(a) + Depth(b)
    decreases |b|
  {
    if b != [] {
      var b' := b[..|b| - 1];
      assert (a + b)[..|a + b| - 1] == a + b';
      DepthAppend(a, b');
    } else {
      assert a + b == a;
    }
  }

  /** Every group that was begun has been ended, and never more ends than begins. */
  predicate Closed(log: seq<UndoEvent>)
  {
    Depth(log) == 0 && forall k :: 0 <= k <= |log| ==> Depth(log[..k]) >= 0
  }

  /** What one mutator adds to the undo history: a begin, and an end unless the
      end was skipped. */
  function Bracket(name: string, ended: bool): seq<UndoEvent>
  {
    if ended then [Begin(name), End] else [Begin(name)]
  }

  /** A complete bracket keeps a closed history closed; a bracket whose end was
      skipped leaves exactly one group open. */
  lemma BracketDepth(log: seq<UndoEvent>, name: string, ended: bool)
    ensures Depth(log + Bracket(name, ended)) == Depth(log) + (if ended then 0 else 1)
    ensures Closed(log) && ended ==> Closed(log + Bracket(name, ended))
    ensures Closed(log) && !ended ==> !Closed(log + Bracket(name, ended))
  {
    DepthAppend(log, Bracket(name, ended));
    var r := log + [Begin(name), End];
    assert r[..|log| + 1] == log + [Begin(name)];
    assert (log + [Begin(name)])[..|log|] == log;
    if Closed(log) {
      forall k | 0 <= k <= |r| ensures Depth(r[..k]) >= 0 {
        if k <= |log| {
          assert r[..k] == log[..k];
        } else if k == |r| {
          assert r[..k] == r;
        }
      }
      assert r[..|r|] == r;
    }
  }

  const UndoChangeValue := "Change Value"
  const UndoFillOpacity := "Change Fill Opacity"
  const UndoKeyframe := "K-Frame"
  const UndoFillKeyframe := "K-Frame Fill"
  const UndoAddStyle := "Add Layer Style"
  const UndoRemoveStyle := "Remove Layer Style"
  const UndoRenameSuffix := "Rename Suffix"
  const UndoToggleSolo := "Toggle Solo"
  const UndoFxToggle := "FX Toggle"
  const UndoTogglePColor := "Toggle P_Color"
  const UndoAutoEnable := "Auto-Enable P_Color"

  // ---- setPropertyValue ----

  /** `setPropertyValue` on the layer at time `t`: the resolved row's property gets `v`. */
  function ValueEdit(l: Layer, t: real, styleId: string, propIndex: int, v: Value): Layer
  {
    match ResolveStyleProp(l, styleId, propIndex)
    case None => l
    case Some(path) => WithProp(l, path, WriteValue(PropAt(l, path), t, v))
  }

  /** An unresolved row changes nothing. A resolved one afterwards reads `v`,
      every other property is untouched, the same row still resolves to it,
      and the layer stays well formed. */
  lemma ValueEditMeaning(l: Layer, t: real, styleId: string, propIndex: int, v: Value)
    ensures ResolveStyleProp(l, styleId, propIndex).None? ==> ValueEdit(l, t, styleId, propIndex, v) == l
    ensures var r := ResolveStyleProp(l, styleId, propIndex);
      var l' := ValueEdit(l, t, styleId, propIndex, v);
      r.Some? ==>
        ValidPath(l', r.value) && PropAt(l', r.value).value == v &&
        ResolveStyleProp(l', styleId, propIndex) == r &&
        forall other :: ValidPath(l, other) && other != r.value ==> ValidPath(l', other) && PropAt(l', other) == PropAt(l, other)
  {
    var r := ResolveStyleProp(l, styleId, propIndex);
    if r.Some? {
      var path := r.value;
      var np := WriteValue(PropAt(l, path), t, v);
      WithPropFrame(l, path, np, path);
      forall other | ValidPath(l, other) && other != path
        ensures ValidPath(WithProp(l, path, np), other) && PropAt(WithProp(l, path, np), other) == PropAt(l, other)
      {
        WithPropFrame(l, path, np, other);
      }
      ResolveAfterWrite(l, path, np, styleId, propIndex);
    }
  }

  /** The write keeps the layer well formed. */
  lemma ValueEditValid(l: Layer, t: real, styleId: string, propIndex: int, v: Value)
    requires ValidLayer(l)
    ensures ValidLayer(ValueEdit(l, t, styleId, propIndex, v))
  {
    var r := ResolveStyleProp(l, styleId, propIndex);
    if r.Some? {
      WriteValueValid(PropAt(l, r.value), t, v);
      WithPropValid(l, r.value, WriteValue(PropAt(l, r.value), t, v));
    }
  }

  // ---- setFillOpacity ----

  /** The style stack's fill-opacity property, if the layer has one. */
  function FillProp(l: Layer): (r: Option<Prop>)
    ensures r.Some? ==> l.styles.Some? && l.styles.value.fillOpacity == r
  {
    if l.styles.Some? then l.styles.value.fillOpacity else None
  }

  function WithFill(l: Layer, np: Prop): Layer
    requires l.styles.Some?
  {
    l.(styles := Some(l.styles.value.(fillOpacity := Some(np))))
  }

  /** `setFillOpacity(v)` on the layer at time `t`. */
  function FillEdit(l: Layer, t: real, v: real): Layer
  {
    match FillProp(l)
    case None => l
    case Some(p) => WithFill(l, WriteValue(p, t, Num(v)))
  }

  /** Afterwards fill opacity reads `v`; the style children, effects, name and
      solo switch are untouched, and the layer stays well formed. */
  lemma FillEditMeaning(l: Layer, t: real, v: real)
    ensures FillProp(l).None? ==> FillEdit(l, t, v) == l
    ensures var l' := FillEdit(l, t, v);
      FillProp(l).Some? ==>
        FillProp(l').Some? && FillProp(l').value.value == Num(v) &&
        l'.styles.value.children == l.styles.value.children && l'.styles.value.enabled == l.styles.value.enabled &&
        l'.effects == l.effects && l'.name == l.name && l'.solo == l.solo && l'.index == l.index
    ensures ValidLayer(l) ==> ValidLayer(FillEdit(l, t, v))
  {
    if FillProp(l).Some? && ValidLayer(l) {
      WriteValueValid(FillProp(l).value, t, Num(v));
    }
  }

  // ---- operateKeyframe / operateFillOpacityKeyframe ----

  /** The layer and the comp time after an edit. */
  datatype Edited = Edited(layer: Layer, time: real)

  /** The property `operateKeyframe` acts on: a resolved row whose property can vary. */
  function KeyframeTarget(l: Layer, styleId: string, propIndex: int): (r: Option<PropPath>)
    ensures r.Some? ==> ValidPath(l, r.value) && PropAt(l, r.value).canVary
    ensures r.Some? ==> ResolveStyleProp(l, styleId, propIndex) == r
    ensures var q := ResolveStyleProp(l, styleId, propIndex);
      q.Some? && PropAt(l, q.value).canVary ==> r == q
  {
    match ResolveStyleProp(l, styleId, propIndex)
    case None => None
    case Some(path) => if PropAt(l, path).canVary then Some(path) else None
  }

  /** `operateKeyframe(styleId, propIndex, action)` at comp time `t`. */
  function KeyframeEdit(l: Layer, t: real, styleId: string, propIndex: int, action: Option<KeyframeAction>): Edited
  {
    match KeyframeTarget(l, styleId, propIndex)
    case None => Edited(l, t)
    case Some(path) =>
      var o := KeyframeEffect(PropAt(l, path), t, action);
      Edited(WithProp(l, path, o.prop), o.time)
  }

  /** `operateFillOpacityKeyframe(action)` at comp time `t`. */
  function FillKeyframeEdit(l: Layer, t: real, action: Option<KeyframeAction>): Edited
  {
    match FillProp(l)
    case None => Edited(l, t)
    case Some(p) =>
      if !p.canVary then Edited(l, t)
      else
        var o := KeyframeEffect(p, t, action);
        Edited(WithFill(l, o.prop), o.time)
  }

  /** Every action keeps a well-formed property well formed and keeps its names. */
  lemma KeyframeEffectValid(p: Prop, t: real, action: Option<KeyframeAction>)
    requires ValidProp(p) && p.canVary
    ensures var r := KeyframeEffect(p, t, action).prop;
      ValidProp(r) && r.matchName == p.matchName && r.name == p.name && r.canVary == p.canVary
  {
    if action == Some(Add) {
      InsertKeyIncreasing(p.keys, Key(t, p.value, Linear, Linear));
    } else if action == Some(Remove) && |p.keys| > 0 {
      RemoveKeyIncreasing(p, NearestKeyIndex(p.keys, t));
    }
  }

  /** Re-writing a property with itself gives back the layer. */
  lemma WithPropSame(l: Layer, path: PropPath)
    requires ValidPath(l, path)
    ensures WithProp(l, path, PropAt(l, path)) == l
  {
    var s := l.styles.value;
    var c := s.children[path.child];
    assert c.props[path.prop := c.props[path.prop]] == c.props;
    assert s.children[path.child := c] == s.children;
  }

  /** A guard that fails, or an unknown action, changes nothing. "prev"/"next"
      change only the time; every other action changes only the targeted
      property. */
  lemma KeyframeEditMeaning(l: Layer, t: real, styleId: string, propIndex: int, action: Option<KeyframeAction>)
    ensures KeyframeTarget(l, styleId, propIndex).None? || action.None? ==>
      KeyframeEdit(l, t, styleId, propIndex, action) == Edited(l, t)
    ensures action == Some(Prev) || action == Some(Next) ==>
      KeyframeEdit(l, t, styleId, propIndex, action).layer == l
    ensures action != Some(Prev) && action != Some(Next) ==>
      KeyframeEdit(l, t, styleId, propIndex, action).time == t
  {
    var target := KeyframeTarget(l, styleId, propIndex);
    if target.Some? {
      var path := target.value;
      var p := PropAt(l, path);
      match action
      case None =>
        WithPropSame(l, path);
      case Some(a) =>
        var idx := if |p.keys| > 0 then NearestKeyIndex(p.keys, t) else 0;
        EffectKinds(p, t, a, idx);
        if a == Prev || a == Next {
          WithPropSame(l, path);
        }
    }
  }

  /** The edit keeps a well-formed layer well formed, and the row still resolves
      to the property it acted on. */
  lemma KeyframeEditValid(l: Layer, t: real, styleId: string, propIndex: int, action: Option<KeyframeAction>)
    requires ValidLayer(l)
    ensures var e := KeyframeEdit(l, t, styleId, propIndex, action);
      ValidLayer(e.layer) && ResolveStyleProp(e.layer, styleId, propIndex) == ResolveStyleProp(l, styleId, propIndex)
  {
    var target := KeyframeTarget(l, styleId, propIndex);
    if target.Some? {
      var path := target.value;
      var p := PropAt(l, path);
      var np := KeyframeEffect(p, t, action).prop;
      KeyframeEffectValid(p, t, action);
      WithPropValid(l, path, np);
      ResolveAfterWrite(l, path, np, styleId, propIndex);
    }
  }

  /** The same for fill opacity, where the guard is only that fill opacity exists and can vary. */
  lemma FillKeyframeEditMeaning(l: Layer, t: real, action: Option<KeyframeAction>)
    ensures FillProp(l).None? || !FillProp(l).value.canVary || action.None? ==>
      FillKeyframeEdit(l, t, action) == Edited(l, t)
    ensures action == Some(Prev) || action == Some(Next) ==>
      FillKeyframeEdit(l, t, action).layer == l
    ensures action != Some(Prev) && action != Some(Next) ==>
      FillKeyframeEdit(l, t, action).time == t
    ensures ValidLayer(l) ==> ValidLayer(FillKeyframeEdit(l, t, action).layer)
  {
    var f := FillProp(l);
    if f.Some? && f.value.canVary {
      var p := f.value;
      match action
      case None =>
      case Some(a) =>
        var idx := if |p.keys| > 0 then NearestKeyIndex(p.keys, t) else 0;
        EffectKinds(p, t, a, idx);
      if ValidLayer(l) {
        KeyframeEffectValid(p, t, action);
      }
    }
  }

  /** The shared keyframe body run on a style row, with the "hold_all" loop. */
  method RunKeyframeEdit(l: Layer, t: real, styleId: string, propIndex: int, action: Option<KeyframeAction>)
    returns (e: Edited)
    ensures e == KeyframeEdit(l, t, styleId, propIndex, action)
  {
    var path := KeyframeTarget(l, styleId, propIndex);
    if path.None? {
      return Edited(l, t);
    }
    var o := OperateOn(PropAt(l, path.value), t, action);
    e := Edited(WithProp(l, path.value, o.prop), o.time);
  }

  /** The shared keyframe body run on fill opacity. */
  method RunFillKeyframeEdit(l: Layer, t: real, action: Option<KeyframeAction>) returns (e: Edited)
    ensures e == FillKeyframeEdit(l, t, action)
  {
    var fill := FillProp(l);
    if fill.None? || !fill.value.canVary {
      return Edited(l, t);
    }
    var o := OperateOn(fill.value, t, action);
    e := Edited(WithFill(l, o.prop), o.time);
  }

  // ---- togglePColor / openPColorPicker ----

  /** A parameter of an effect, both 0-based. */
  datatype ParamPath = ParamPath(fx: nat, param: nat)

  /** `fxGrp.property(effectName).property(idx)` with a 1-based `idx`; `None`
      wherever the host would fail (no effects, no such effect, no such index). */
  function EffectParam(l: Layer, effectName: string, idx: int): (r: Option<ParamPath>)
    ensures r.Some? ==> (l.effects.Some? && r.value.fx < |l.effects.value| &&
      r.value.param < |l.effects.value[r.value.fx].params| && r.value.param == idx - 1)
    ensures r.Some? ==> FirstEffectIs(l.effects.value, r.value.fx, effectName)
    ensures l.effects.Some? ==> forall i :: FirstEffectIs(l.effects.value, i, effectName) && 1 <= idx <= |l.effects.value[i].params| ==>
      r == Some(ParamPath(i, idx - 1))
  {
    match l.effects
    case None => None
    case Some(fx) =>
      match EffectNamed(fx, effectName)
      case None => None
      case Some(i) => if 1 <= idx <= |fx[i].params| then Some(ParamPath(i, idx - 1)) else None
  }

  function ParamAt(l: Layer, pp: ParamPath): Prop
    requires l.effects.Some? && pp.fx < |l.effects.value| && pp.param < |l.effects.value[pp.fx].params|
  {
    l.effects.value[pp.fx].params[pp.param]
  }

  /** `togglePColor(effectName, enableIdx)` at time `t`. */
  function PColorToggle(l: Layer, t: real, effectName: string, enableIdx: int): Layer
  {
    match EffectParam(l, effectName, enableIdx)
    case None => l
    case Some(pp) => WithParam(l, pp.fx, pp.param, WriteValue(ParamAt(l, pp), t, ToggledSwitch(ParamAt(l, pp).value)))
  }

  /** The switching part of `openPColorPicker(effectName, propIdx, enableIdx)` at time `t`. */
  function PColorAutoEnable(l: Layer, t: real, effectName: string, propIdx: int, enableIdx: int): Layer
  {
    match EffectParam(l, effectName, enableIdx)
    case None => l
    case Some(pp) =>
      if EffectParam(l, effectName, propIdx).Some? && NeedsAutoEnable(ParamAt(l, pp).value)
      then WithParam(l, pp.fx, pp.param, WriteValue(ParamAt(l, pp), t, Num(1.0)))
      else l
  }

  /** Toggling the switch just before a colour slot flips whether the panel
      shows that slot as off, for a one-dimensional switch reading 0, 1,
      false or true. */
  lemma ToggleFlipsSlot(params: seq<Prop>, pi: int, t: real)
    requires 2 <= pi <= |params| && params[pi - 2].valueType == OneD
    requires params[pi - 2].value in {Num(0.0), Num(1.0), Bool(false), Bool(true)}
    ensures var np := WriteValue(params[pi - 2], t, ToggledSwitch(params[pi - 2].value));
      SlotDisabled(params[pi - 2 := np], pi) == !SlotDisabled(params, pi)
  {
  }

  /** After the auto-enable write, the panel shows the slot as on. */
  lemma AutoEnableShowsSlot(params: seq<Prop>, pi: int, t: real)
    requires 2 <= pi <= |params|
    ensures var np := WriteValue(params[pi - 2], t, Num(1.0));
      !SlotDisabled(params[pi - 2 := np], pi)
  {
  }

  /** Both P_Color edits change at most the one switch parameter they name,
      and keep the layer well formed. */
  lemma PColorEditsMeaning(l: Layer, t: real, effectName: string, propIdx: int, enableIdx: int)
    ensures EffectParam(l, effectName, enableIdx).None? ==>
      PColorToggle(l, t, effectName, enableIdx) == l && PColorAutoEnable(l, t, effectName, propIdx, enableIdx) == l
    ensures var pp := EffectParam(l, effectName, enableIdx);
      var l' := PColorToggle(l, t, effectName, enableIdx);
      pp.Some? ==>
        l'.effects.Some? && |l'.effects.value| == |l.effects.value| &&
        ParamAt(l', pp.value) == WriteValue(ParamAt(l, pp.value), t, ToggledSwitch(ParamAt(l, pp.value).value)) &&
        l'.styles == l.styles && l'.name == l.name && l'.solo == l.solo &&
        forall i, j :: 0 <= i < |l.effects.value| && 0 <= j < |l.effects.value[i].params| && (i, j) != (pp.value.fx, pp.value.param) ==>
          j < |l'.effects.value[i].params| && l'.effects.value[i].params[j] == l.effects.value[i].params[j]
    ensures ValidLayer(l) ==>
      ValidLayer(PColorToggle(l, t, effectName, enableIdx)) && ValidLayer(PColorAutoEnable(l, t, effectName, propIdx, enableIdx))
  {
    var pp := EffectParam(l, effectName, enableIdx);
    if pp.Some? && ValidLayer(l) {
      var p := ParamAt(l, pp.value);
      WriteValueValid(p, t, ToggledSwitch(p.value));
      WithParamValid(l, pp.value.fx, pp.value.param, WriteValue(p, t, ToggledSwitch(p.value)));
      WriteValueValid(p, t, Num(1.0));
      WithParamValid(l, pp.value.fx, pp.value.param, WriteValue(p, t, Num(1.0)));
    }
  }

  /** The auto-enable edit writes 1 into the switch exactly when the effect,
      the switch and the colour slot all resolve and the switch reads 0 or
      false; every other parameter, and the rest of the layer, stay as they
      were. Otherwise the layer is unchanged. */
  lemma PColorAutoEnableMeaning(l: Layer, t: real, effectName: string, propIdx: int, enableIdx: int)
    ensures var pp := EffectParam(l, effectName, enableIdx);
      var l' := PColorAutoEnable(l, t, effectName, propIdx, enableIdx);
      !(pp.Some? && EffectParam(l, effectName, propIdx).Some? && NeedsAutoEnable(ParamAt(l, pp.value).value)) ==>
        l' == l
    ensures var pp := EffectParam(l, effectName, enableIdx);
      var l' := PColorAutoEnable(l, t, effectName, propIdx, enableIdx);
      pp.Some? && EffectParam(l, effectName, propIdx).Some? && NeedsAutoEnable(ParamAt(l, pp.value).value) ==>
        l'.effects.Some? && |l'.effects.value| == |l.effects.value| &&
        ParamAt(l', pp.value) == WriteValue(ParamAt(l, pp.value), t, Num(1.0)) &&
        l'.styles == l.styles && l'.name == l.name && l'.solo == l.solo &&
        forall i, j :: 0 <= i < |l.effects.value| && 0 <= j < |l.effects.value[i].params| && (i, j) != (pp.value.fx, pp.value.param) ==>
          j < |l'.effects.value[i].params| && l'.effects.value[i].params[j] == l.effects.value[i].params[j]
  {
  }

  // ---- navigateFrame ----

  /** `navigateFrame(delta)`: step `delta` frames, clamped to the comp. */
  function SteppedTime(c: Comp, delta: real): real
  {
    Max(0.0, Min(c.duration, c.time + delta * c.frameDuration))
  }

  /** The new time lies in [0, duration]; a step that stays inside the comp is
      exact, and one step forward then back returns to the starting frame. */
  lemma SteppedTimeMeaning(c: Comp, delta: real)
    requires ValidComp(c)
    ensures 0.0 <= SteppedTime(c, delta) <= c.duration
    ensures 0.0 <= c.time + delta * c.frameDuration <= c.duration ==> SteppedTime(c, delta) == c.time + delta * c.frameDuration
    ensures 0.0 <= c.time && c.time + c.frameDuration <= c.duration ==>
      SteppedTime(c.(time := SteppedTime(c, 1.0)), -1.0) == c.time
  {
  }

  // ---- the row mutators on values ----

  /** `setPropertyValue` on layer `l` at comp time `t`: the layer afterwards and
      what the call adds to the undo history (a complete bracket, since the end
      sits outside the `try`). */
  method SetPropertyValueOn(l: Layer, t: real, styleId: string, propIndex: int, value: Value, hostThrows: bool)
    returns (l': Layer, undo: seq<UndoEvent>)
    requires ValidLayer(l)
    ensures ValidLayer(l')
    ensures l' == if hostThrows then l else ValueEdit(l, t, styleId, propIndex, value)
    ensures undo == if ResolveStyleProp(l, styleId, propIndex).Some? then Bracket(UndoChangeValue, true) else []
  {
    var path := ResolveStyleProp(l, styleId, propIndex);
    if path.None? {
      return l, [];
    }
    l' := l;
    if !hostThrows {
      ValueEditValid(l, t, styleId, propIndex, value);
      l' := WithProp(l, path.value, WriteValue(PropAt(l, path.value), t, value));
    }
    undo := Bracket(UndoChangeValue, true);
  }

  /** `operateKeyframe` on layer `l` at comp time `t`: the layer and time
      afterwards and what the call adds to the undo history. */
  method OperateKeyframeOn(l: Layer, t: real, styleId: string, propIndex: int, action: string, hostThrows: bool)
    returns (e: Edited, undo: seq<UndoEvent>)
    requires ValidLayer(l)
    ensures ValidLayer(e.layer)
    ensures e == if hostThrows then Edited(l, t) else KeyframeEdit(l, t, styleId, propIndex, ParseAction(action))
    ensures undo == if KeyframeTarget(l, styleId, propIndex).Some? then Bracket(UndoKeyframe, true) else []
  {
    var path := KeyframeTarget(l, styleId, propIndex);
    if path.None? {
      return Edited(l, t), [];
    }
    e := Edited(l, t);
    if !hostThrows {
      e := RunKeyframeEdit(l, t, styleId, propIndex, ParseAction(action));
      KeyframeEditValid(l, t, styleId, propIndex, ParseAction(action));
    }
    undo := Bracket(UndoKeyframe, true);
  }

  /** `operateFillOpacityKeyframe` on layer `l` at comp time `t`; the end of
      the undo group is skipped when the host call fails. */
  method OperateFillKeyframeOn(l: Layer, t: real, action: string, hostThrows: bool)
    returns (e: Edited, undo: seq<UndoEvent>)
    requires ValidLayer(l)
    ensures ValidLayer(e.layer)
    ensures e == if hostThrows then Edited(l, t) else FillKeyframeEdit(l, t, ParseAction(action))
    ensures undo == if FillProp(l).Some? && FillProp(l).value.canVary then Bracket(UndoFillKeyframe, !hostThrows) else []
  {
    var fill := FillProp(l);
    if fill.None? || !fill.value.canVary {
      return Edited(l, t), [];
    }
    e := Edited(l, t);
    if !hostThrows {
      e := RunFillKeyframeEdit(l, t, ParseAction(action));
      FillKeyframeEditMeaning(l, t, ParseAction(action));
    }
    undo := Bracket(UndoFillKeyframe, !hostThrows);
  }

  /** `addStyle(styleId)` given the host's menu ids: the commands it issues
      (the chosen menu command, if any) and its undo bracket. */
  method AddStyleOn(styleId: string, menuIds: map<string, int>) returns (issued: seq<HostCommand>, undo: seq<UndoEvent>)
    ensures issued == match ChooseCommand(styleId, menuIds) case Some(id) => [RunCommand(id)] case None => []
    ensures undo == Bracket(UndoAddStyle, true)
  {
    var cmd := ChooseCommandLoop(styleId, menuIds);
    issued := if cmd.Some? then [RunCommand(cmd.value)] else [];
    undo := Bracket(UndoAddStyle, true);
  }

  /** `removeStyle(styleId)` on layer `l`: Edit > Clear on the style's target
      inside an undo bracket, or nothing when there is no target. */
  method RemoveStyleOn(l: Layer, styleId: string) returns (issued: seq<HostCommand>, undo: seq<UndoEvent>)
    ensures var r := RemoveTarget(l, styleId);
      issued == (if r.Some? then [ClearSelected(r.value)] else []) &&
      undo == (if r.Some? then Bracket(UndoRemoveStyle, true) else [])
  {
    var target := RemoveTarget(l, styleId);
    if target.None? {
      return [], [];
    }
    issued := [ClearSelected(target.value)];
    undo := Bracket(UndoRemoveStyle, true);
  }

  // ---- the host ----

  class Host {
    /** The active comp (`app.project.activeItem`), if any. */
    var comp: Option<Comp>
    /** The layer `getActiveLayer` finds in that comp, if any. */
    var layer: Option<Layer>
    var undoLog: seq<UndoEvent>
    var commands: seq<HostCommand>
    /** What `app.findMenuCommandId` answers; names it does not know answer 0. */
    const menuIds: map<string, int>

    ghost predicate Valid()
      reads this
    {
      (layer.Some? ==> comp.Some?) &&
      (comp.Some? ==> ValidComp(comp.value)) &&
      (layer.Some? ==> ValidLayer(layer.value))
    }

    constructor (comp: Option<Comp>, layer: Option<Layer>, menuIds: map<string, int>)
      requires layer.Some? ==> comp.Some?
      requires comp.Some? ==> ValidComp(comp.value)
      requires layer.Some? ==> ValidLayer(layer.value)
      ensures Valid()
      ensures this.comp == comp && this.layer == layer && this.menuIds == menuIds
      ensures undoLog == [] && commands == []
    {
      this.comp := comp;
      this.layer := layer;
      this.menuIds := menuIds;
      undoLog := [];
      commands := [];
    }

    /** `getLayerStyleState(styleId)`: reads the host, changes nothing. */
    method GetLayerStyleState(styleId: string) returns (st: PanelState)
      requires Valid()
      ensures layer.None? ==> st == EmptyState(styleId)
      ensures layer.Some? ==> st == Snapshot(comp.value, layer, styleId)
    {
      if layer.None? {
        return EmptyState(styleId);
      }
      st := AeftSnapshot.GetLayerStyleState(comp.value, layer, styleId);
    }

    /** `setPropertyValue(styleId, propIndex, value)`. The undo group is ended
        outside the `try`, so it is ended even when the write fails. */
    method SetPropertyValue(styleId: string, propIndex: int, value: Value, hostThrows: bool)
      requires Valid()
      modifies this
      ensures Valid()
      ensures comp == old(comp) && commands == old(commands)
      ensures old(layer).None? ==> layer == old(layer) && undoLog == old(undoLog)
      ensures old(layer).Some? ==>
        var l := old(layer).value;
        layer == (if hostThrows then old(layer) else Some(ValueEdit(l, old(comp).value.time, styleId, propIndex, value))) &&
        undoLog == old(undoLog) + (if ResolveStyleProp(l, styleId, propIndex).Some? then Bracket(UndoChangeValue, true) else [])
    {
      if layer.None? {
        return;
      }
      var l := layer.value;
      var t := comp.value.time;
      var l', undo := SetPropertyValueOn(l, t, styleId, propIndex, value, hostThrows);
      layer := Some(l');
      undoLog := undoLog + undo;
    }

    /** `setFillOpacity(value)`. Begin and end both sit inside the `try`, so a
        failing write skips the end. */
    method SetFillOpacity(value: real, hostThrows: bool)
      requires Valid()
      modifies this
      ensures Valid()
      ensures comp == old(comp) && commands == old(commands)
      ensures old(layer).None? ==> layer == old(layer) && undoLog == old(undoLog)
      ensures old(layer).Some? ==>
        var l := old(layer).value;
        layer == (if hostThrows then old(layer) else Some(FillEdit(l, old(comp).value.time, value))) &&
        undoLog == old(undoLog) + (if FillProp(l).Some? then Bracket(UndoFillOpacity, !hostThrows) else [])
    {
      if layer.None? {
        return;
      }
      var l := layer.value;
      var t := comp.value.time;
      var fill := FillProp(l);
      if fill.None? {
        return;
      }
      if !hostThrows {
        FillEditMeaning(l, t, value);
        layer := Some(WithFill(l, WriteValue(fill.value, t, Num(value))));
      }
      undoLog := undoLog + Bracket(UndoFillOpacity, !hostThrows);
    }

    /** `operateKeyframe(styleId, propIndex, action)`; the undo group is ended outside the `try`. */
    method OperateKeyframe(styleId: string, propIndex: int, action: string, hostThrows: bool)
      requires Valid()
      modifies this
      ensures Valid()
      ensures commands == old(commands)
      ensures old(layer).None? ==> layer == old(layer) && comp == old(comp) && undoLog == old(undoLog)
      ensures old(layer).Some? ==>
        var l := old(layer).value;
        var e := KeyframeEdit(l, old(comp).value.time, styleId, propIndex, ParseAction(action));
        (if hostThrows then layer == old(layer) && comp == old(comp)
         else layer == Some(e.layer) && comp == Some(old(comp).value.(time := e.time))) &&
        undoLog == old(undoLog) + (if KeyframeTarget(l, styleId, propIndex).Some? then Bracket(UndoKeyframe, true) else [])
    {
      if layer.None? {
        return;
      }
      var l := layer.value;
      var c := comp.value;
      var e, undo := OperateKeyframeOn(l, c.time, styleId, propIndex, action, hostThrows);
      layer := Some(e.layer);
      comp := Some(c.(time := e.time));
      undoLog := undoLog + undo;
    }

    /** `operateFillOpacityKeyframe(action)`; begin and end sit inside the `try`. */
    method OperateFillOpacityKeyframe(action: string, hostThrows: bool)
      requires Valid()
      modifies this
      ensures Valid()
      ensures commands == old(commands)
      ensures old(layer).None? ==> layer == old(layer) && comp == old(comp) && undoLog == old(undoLog)
      ensures old(layer).Some? ==>
        var l := old(layer).value;
        var e := FillKeyframeEdit(l, old(comp).value.time, ParseAction(action));
        (if hostThrows then layer == old(layer) && comp == old(comp)
         else layer == Some(e.layer) && comp == Some(old(comp).value.(time := e.time))) &&
        undoLog == old(undoLog) +
          (if FillProp(l).Some? && FillProp(l).value.canVary then Bracket(UndoFillKeyframe, !hostThrows) else [])
    {
      if layer.None? {
        return;
      }
      var l := layer.value;
      var c := comp.value;
      var e, undo := OperateFillKeyframeOn(l, c.time, action, hostThrows);
      layer := Some(e.layer);
      comp := Some(c.(time := e.time));
      undoLog := undoLog + undo;
    }

    /** `addStyle(styleId)`: runs the chosen menu command, if any. The style the
        command adds is the host's doing and is not modelled. */
    method AddStyle(styleId: string)
      requires Valid()
      modifies this
      ensures Valid()
      ensures comp == old(comp) && layer == old(layer)
      ensures old(layer).None? ==> undoLog == old(undoLog) && commands == old(commands)
      ensures old(layer).Some? ==>
        undoLog == old(undoLog) + Bracket(UndoAddStyle, true) &&
        commands == old(commands) + (match ChooseCommand(styleId, menuIds) case Some(id) => [RunCommand(id)] case None => [])
    {
      if layer.None? {
        return;
      }
      var issued, undo := AddStyleOn(styleId, menuIds);
      commands := commands + issued;
      undoLog := undoLog + undo;
    }

    /** `removeStyle(styleId)`: selects the style's target and clears it. What
        the clear removes is the host's doing and is not modelled. */
    method RemoveStyle(styleId: string)
      requires Valid()
      modifies this
      ensures Valid()
      ensures comp == old(comp) && layer == old(layer)
      ensures var r := if old(layer).Some? then RemoveTarget(old(layer).value, styleId) else None;
        if r.Some? then undoLog == old(undoLog) + Bracket(UndoRemoveStyle, true) &&
                        commands == old(commands) + [ClearSelected(r.value)]
        else undoLog == old(undoLog) && commands == old(commands)
    {
      if layer.None? {
        return;
      }
      var issued, undo := RemoveStyleOn(layer.value, styleId);
      commands := commands + issued;
      undoLog := undoLog + undo;
    }

    /** `applyNameSuffix(suffix)`. The assignment sits in a `try` and the
        group is ended after it, so a failing write leaves the name as it was
        and still closes the group. */
    method ApplyNameSuffix(suffix: string, hostThrows: bool)
      requires Valid()
      modifies this
      ensures Valid()
      ensures comp == old(comp) && commands == old(commands)
      ensures old(layer).None? ==> layer == old(layer) && undoLog == old(undoLog)
      ensures old(layer).Some? ==>
        layer == (if hostThrows then old(layer)
                  else Some(old(layer).value.(name := SuffixedName(old(layer).value.name, suffix)))) &&
        undoLog == old(undoLog) + Bracket(UndoRenameSuffix, true)
    {
      if layer.None? {
        return;
      }
      if !hostThrows {
        var n := StripTrailingNumber(layer.value.name);
        layer := Some(layer.value.(name := n + suffix));
      }
      undoLog := undoLog + Bracket(UndoRenameSuffix, true);
    }

    /** `toggleSolo()`: as for the rename, a failing write leaves the switch
        as it was and the group is still closed. */
    method ToggleSolo(hostThrows: bool)
      requires Valid()
      modifies this
      ensures Valid()
      ensures comp == old(comp) && commands == old(commands)
      ensures old(layer).None? ==> layer == old(layer) && undoLog == old(undoLog)
      ensures old(layer).Some? ==>
        layer == (if hostThrows then old(layer) else Some(old(layer).value.(solo := !old(layer).value.solo))) &&
        undoLog == old(undoLog) + Bracket(UndoToggleSolo, true)
    {
      if layer.None? {
        return;
      }
      if !hostThrows {
        layer := Some(layer.value.(solo := !layer.value.solo));
      }
      undoLog := undoLog + Bracket(UndoToggleSolo, true);
    }

    /** `toggleFxEnabled()`: nothing when the layer has no effects. The writes
        to the effects at the positions in `failing` throw; each is caught on
        its own, so those effects keep their state while the others toggle. */
    method ToggleFxEnabled(failing: set<nat>)
      requires Valid()
      modifies this
      ensures Valid()
      ensures comp == old(comp) && commands == old(commands)
      ensures var acts := old(layer).Some? && old(layer).value.effects.Some? && |old(layer).value.effects.value| > 0;
        if acts then
          layer == Some(old(layer).value.(effects := Some(ToggledEffectsFailing(old(layer).value.effects.value, failing)))) &&
          undoLog == old(undoLog) + Bracket(UndoFxToggle, true)
        else layer == old(layer) && undoLog == old(undoLog)
    {
      if layer.None? || layer.value.effects.None? || |layer.value.effects.value| == 0 {
        return;
      }
      var l := layer.value;
      var fx := ToggleEffects(l.effects.value, failing);
      ToggledEffectsKeep(l.effects.value);
      layer := Some(l.(effects := Some(fx)));
      undoLog := undoLog + Bracket(UndoFxToggle, true);
    }

    /** `navigateFrame(delta)`: no undo group. */
    method NavigateFrame(delta: real)
      requires Valid()
      modifies this
      ensures Valid()
      ensures layer == old(layer) && undoLog == old(undoLog) && commands == old(commands)
      ensures comp == if old(comp).None? then None else Some(old(comp).value.(time := SteppedTime(old(comp).value, delta)))
      ensures comp.Some? ==> 0.0 <= comp.value.time <= comp.value.duration
    {
      if comp.None? {
        return;
      }
      SteppedTimeMeaning(comp.value, delta);
      var newTime := comp.value.time + delta * comp.value.frameDuration;
      comp := Some(comp.value.(time := Max(0.0, Min(comp.value.duration, newTime))));
    }

    /** `togglePColor(effectName, enableIdx)`; begin and end sit inside the `try`. */
    method TogglePColor(effectName: string, enableIdx: int, hostThrows: bool)
      requires Valid()
      modifies this
      ensures Valid()
      ensures comp == old(comp) && commands == old(commands)
      ensures old(layer).None? ==> layer == old(layer) && undoLog == old(undoLog)
      ensures old(layer).Some? ==>
        var l := old(layer).value;
        layer == (if hostThrows then old(layer) else Some(PColorToggle(l, old(comp).value.time, effectName, enableIdx))) &&
        undoLog == old(undoLog) + (if EffectParam(l, effectName, enableIdx).Some? then Bracket(UndoTogglePColor, !hostThrows) else [])
    {
      if layer.None? {
        return;
      }
      var l := layer.value;
      var t := comp.value.time;
      var pp := EffectParam(l, effectName, enableIdx);
      if pp.None? {
        return;
      }
      if !hostThrows {
        PColorEditsMeaning(l, t, effectName, enableIdx, enableIdx);
        var p := ParamAt(l, pp.value);
        var newVal := if p.value == Num(1.0) || p.value == Bool(true) then Num(0.0) else Num(1.0);
        layer := Some(WithParam(l, pp.value.fx, pp.value.param, WriteValue(p, t, newVal)));
      }
      undoLog := undoLog + Bracket(UndoTogglePColor, !hostThrows);
    }

    /** The auto-enable half of `openPColorPicker(effectName, propIdx, enableIdx)`. */
    method OpenPColorPicker(effectName: string, propIdx: int, enableIdx: int, hostThrows: bool)
      requires Valid()
      modifies this
      ensures Valid()
      ensures comp == old(comp) && commands == old(commands)
      ensures old(layer).None? ==> layer == old(layer) && undoLog == old(undoLog)
      ensures old(layer).Some? ==>
        var l := old(layer).value;
        var pp := EffectParam(l, effectName, enableIdx);
        var acts := pp.Some? && EffectParam(l, effectName, propIdx).Some? && NeedsAutoEnable(ParamAt(l, pp.value).value);
        layer == (if hostThrows then old(layer) else Some(PColorAutoEnable(l, old(comp).value.time, effectName, propIdx, enableIdx))) &&
        undoLog == old(undoLog) + (if acts then Bracket(UndoAutoEnable, !hostThrows) else [])
    {
      if layer.None? {
        return;
      }
      var l := layer.value;
      var t := comp.value.time;
      var pp := EffectParam(l, effectName, enableIdx);
      if pp.None? || EffectParam(l, effectName, propIdx).None? {
        return;
      }
      var p := ParamAt(l, pp.value);
      if !NeedsAutoEnable(p.value) {
        return;
      }
      if !hostThrows {
        PColorEditsMeaning(l, t, effectName, propIdx, enableIdx);
        layer := Some(WithParam(l, pp.value.fx, pp.value.param, WriteValue(p, t, Num(1.0))));
      }
      undoLog := undoLog + Bracket(UndoAutoEnable, !hostThrows);
    }
  }
}
