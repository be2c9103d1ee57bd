/** The pieces of the host mutators that are plain computations on values:
    resolving a panel row to a property, replacing a property inside a layer,
    the trailing-number strip of `applyNameSuffix`, the effect toggle of
    `toggleFxEnabled`, the command choice of `addStyle`, the guard of
    `removeStyle` and the P_Color switch arithmetic. */
module AeftEdits {
  import opened Common
  import opened LayerStyleTypes
  import opened HostModel
  import opened AeftLookups

  /** A property inside the style stack: child `child` of the stack, property `prop` of that child. */
  datatype PropPath = PropPath(child: nat, prop: nat)

  predicate ValidPath(l: Layer, path: PropPath)
  {
    l.styles.Some? && path.child < |l.styles.value.children| &&
    path.prop < |l.styles.value.children[path.child].props|
  }

  function PropAt(l: Layer, path: PropPath): Prop
    requires ValidPath(l, path)
  {
    l.styles.value.children[path.child].props[path.prop]
  }

  /** The layer with the property at `path` replaced. */
  function WithProp(l: Layer, path: PropPath, np: Prop): Layer
    requires ValidPath(l, path)
  {
    var s := l.styles.value;
    var c := s.children[path.child];
    l.(styles := Some(s.(children := s.children[path.child := c.(props := c.props[path.prop := np])])))
  }

  /** Replacing a property changes that property and nothing else. */
  lemma WithPropFrame(l: Layer, path: PropPath, np: Prop, other: PropPath)
    requires ValidPath(l, path)
    ensures ValidPath(WithProp(l, path, np), path) && PropAt(WithProp(l, path, np), path) == np
    ensures ValidPath(WithProp(l, path, np), other) <==> ValidPath(l, other)
    ensures ValidPath(l, other) && other != path ==> PropAt(WithProp(l, path, np), other) == PropAt(l, other)
    ensures var l' := WithProp(l, path, np);
      l'.index == l.index && l'.name == l.name && l'.solo == l.solo && l'.effects == l.effects &&
      l'.styles.value.enabled == l.styles.value.enabled && l'.styles.value.fillOpacity == l.styles.value.fillOpacity &&
      |l'.styles.value.children| == |l.styles.value.children| &&
      forall i :: 0 <= i < |l.styles.value.children| ==>
        l'.styles.value.children[i].matchName == l.styles.value.children[i].matchName &&
        l'.styles.value.children[i].name == l.styles.value.children[i].name &&
        l'.styles.value.children[i].enabled == l.styles.value.children[i].enabled
  {
  }

  /** A well-formed replacement keeps the layer well formed. */
  lemma WithPropValid(l: Layer, path: PropPath, np: Prop)
    requires ValidLayer(l) && ValidPath(l, path) && ValidProp(np)
    ensures ValidLayer(WithProp(l, path, np))
  {
    var l' := WithProp(l, path, np);
    var s := l.styles.value;
    var s' := l'.styles.value;
    forall i | 0 <= i < |s'.children| ensures ValidProps(s'.children[i].props) {
      if i == path.child {
        forall j | 0 <= j < |s'.children[i].props| ensures ValidProp(s'.children[i].props[j]) {
          if j != path.prop {
            assert s'.children[i].props[j] == s.children[i].props[j];
          }
        }
      } else {
        assert s'.children[i] == s.children[i];
      }
    }
  }

  /** The host's guard chain of `setPropertyValue`, `operateKeyframe` and the
      colour picker: a style stack, a known style whose group exists and is
      enabled, a definition at `propIndex` and a property it resolves to.
      A negative index makes the host script fail before it changes anything. */
  function ResolveStyleProp(l: Layer, styleId: string, propIndex: int): (r: Option<PropPath>)
    ensures r.Some? ==> ValidPath(l, r.value)
  {
    match l.styles
    case None => None
    case Some(s) =>
      match FindStyleDef(styleId)
      case None => None
      case Some(def) =>
        match GetStyleGroupProp(s, def)
        case None => None
        case Some(target) =>
          var defs := StylePropDefs(styleId);
          if !TargetEnabled(s, target) || defs.None? || propIndex < 0 || propIndex >= |defs.value| then None
          else match target
            case WholeStack => None
            case Child(c) =>
              match FindPropInGroup(s.children[c].props, KeySuffixes(defs.value[propIndex].key))
              case None => None
              case Some(j) => Some(PropPath(c, j))
  }

  /** A resolved row sits in the style the catalog entry names, that style is
      enabled, and its property answers to the definition's keys. */
  lemma ResolveStylePropMeaning(l: Layer, styleId: string, propIndex: int)
    ensures var r := ResolveStyleProp(l, styleId, propIndex);
      r.Some? ==>
        StylePropDefs(styleId).Some? && 0 <= propIndex < |StylePropDefs(styleId).value| &&
        FindStyleDef(styleId).Some? &&
        GetStyleGroupProp(l.styles.value, FindStyleDef(styleId).value) == Some(Child(r.value.child)) &&
        l.styles.value.children[r.value.child].enabled &&
        exists k :: 0 <= k < |KeySuffixes(StylePropDefs(styleId).value[propIndex].key)| &&
          ScanMatches(PropAt(l, r.value), KeySuffixes(StylePropDefs(styleId).value[propIndex].key)[k])
    ensures var s := l.styles; var d := FindStyleDef(styleId); var defs := StylePropDefs(styleId);
      s.Some? && d.Some? && defs.Some? && 0 <= propIndex < |defs.value| &&
      GetStyleGroupProp(s.value, d.value).Some? && GetStyleGroupProp(s.value, d.value).value.Child? ==>
        var c := GetStyleGroupProp(s.value, d.value).value.index;
        var j := FindPropInGroup(s.value.children[c].props, KeySuffixes(defs.value[propIndex].key));
        s.value.children[c].enabled && j.Some? ==> ResolveStyleProp(l, styleId, propIndex) == Some(PropPath(c, j.value))
  {
    var r := ResolveStyleProp(l, styleId, propIndex);
    if r.Some? {
      var s := l.styles.value;
      var c := r.value.child;
      FindPropInGroupMeaning(s.children[c].props, KeySuffixes(StylePropDefs(styleId).value[propIndex].key));
    }
  }

  /** Two property lists whose names agree position by position. */
  predicate SameNames(ps: seq<Prop>, qs: seq<Prop>)
  {
    |ps| == |qs| && forall i :: 0 <= i < |ps| ==> ps[i].matchName == qs[i].matchName && ps[i].name == qs[i].name
  }

  /** Lookups by name see only names. */
  lemma FindPropInGroupByNames(ps: seq<Prop>, qs: seq<Prop>, keys: seq<string>)
    requires SameNames(ps, qs)
    ensures FindPropInGroup(ps, keys) == FindPropInGroup(qs, keys)
    decreases |keys|
  {
    if keys != [] {
      var sfx := keys[0];
      FirstWhereAgrees(ps, (p: Prop) => PropIs(p, "ADBE " + sfx), qs, (p: Prop) => PropIs(p, "ADBE " + sfx));
      FirstWhereAgrees(ps, (p: Prop) => PropIs(p, sfx), qs, (p: Prop) => PropIs(p, sfx));
      FirstWhereAgrees(ps, (p: Prop) => ScanMatches(p, sfx), qs, (p: Prop) => ScanMatches(p, sfx));
      assert FindByKey(ps, sfx) == FindByKey(qs, sfx);
      FindPropInGroupByNames(ps, qs, keys[1..]);
    }
  }

  /** Two style stacks that agree on everything the row lookup reads: the
      enabled flags, the children's match names and their properties' names. */
  predicate SameShape(s: StyleStack, s': StyleStack)
  {
    s.enabled == s'.enabled && |s.children| == |s'.children| &&
    forall c :: 0 <= c < |s.children| ==>
      s.children[c].matchName == s'.children[c].matchName && s.children[c].enabled == s'.children[c].enabled &&
      SameNames(s.children[c].props, s'.children[c].props)
  }

  /** A style's group is found at the same place in stacks of the same shape. */
  lemma GroupSameShape(s: StyleStack, s': StyleStack, d: StyleButtonDef)
    requires SameShape(s, s')
    ensures GetStyleGroupProp(s, d) == GetStyleGroupProp(s', d)
  {
    FirstWhereAgrees(s.children, (e: StyleEntry) => DefMatches(e, d),
                     s'.children, (e: StyleEntry) => DefMatches(e, d));
  }

  /** Rows resolve alike in layers whose style stacks have the same shape. */
  lemma ResolveSameShape(l: Layer, l': Layer, styleId: string, propIndex: int)
    requires l.styles.Some? && l'.styles.Some? && SameShape(l.styles.value, l'.styles.value)
    ensures ResolveStyleProp(l', styleId, propIndex) == ResolveStyleProp(l, styleId, propIndex)
  {
    var s := l.styles.value;
    var s' := l'.styles.value;
    var def := FindStyleDef(styleId);
    if def.Some? {
      GroupSameShape(s, s', def.value);
      var target := GetStyleGroupProp(s, def.value);
      var defs := StylePropDefs(styleId);
      if target.Some? && target.value.Child? && defs.Some? && 0 <= propIndex < |defs.value| {
        var c := target.value.index;
        FindPropInGroupByNames(s.children[c].props, s'.children[c].props, KeySuffixes(defs.value[propIndex].key));
      }
    }
  }

  /** Replacing a property by one with the same names keeps the stack's shape. */
  lemma WithPropSameShape(l: Layer, path: PropPath, np: Prop)
    requires ValidPath(l, path)
    requires np.matchName == PropAt(l, path).matchName && np.name == PropAt(l, path).name
    ensures SameShape(l.styles.value, WithProp(l, path, np).styles.value)
  {
    var s := l.styles.value;
    var s' := WithProp(l, path, np).styles.value;
    forall c | 0 <= c < |s.children| ensures SameNames(s.children[c].props, s'.children[c].props) {
      if c != path.child {
        assert s'.children[c] == s.children[c];
      }
    }
  }

  /** Writing a value leaves every row resolving to the same property as before,
      so a second edit of the same row reaches the property the first one changed. */
  lemma ResolveAfterWrite(l: Layer, path: PropPath, np: Prop, styleId: string, propIndex: int)
    requires ValidPath(l, path)
    requires np.matchName == PropAt(l, path).matchName && np.name == PropAt(l, path).name
    ensures ResolveStyleProp(WithProp(l, path, np), styleId, propIndex) == ResolveStyleProp(l, styleId, propIndex)
  {
    WithPropSameShape(l, path, np);
    ResolveSameShape(l, WithProp(l, path, np), styleId, propIndex);
  }

  /** The number of trailing characters satisfying `p`. */
  function TrailingCount(s: string, p: char -> bool): (n: nat)
    ensures n <= |s|
    ensures forall i :: |s| - n <= i < |s| ==> p(s[i])
    ensures n < |s| ==> !p(s[|s| - n - 1])
  {
    if s == [] || !p(s[|s| - 1]) then 0
    else 1 + TrailingCount(s[..|s| - 1], p)
  }

  /** `u[..k]` is non-empty whitespace and `u[k..]` non-empty digits. */
  predicate SplitAt(u: string, k: int)
  {
    0 < k < |u| && (forall i :: 0 <= i < k ==> IsSpace(u[i])) && (forall i :: k <= i < |u| ==> IsDigit(u[i]))
  }

  /** `u` as a whole matches `\s+\d+`. */
  predicate SpaceDigits(u: string)
  {
    exists k :: 0 < k < |u| && SplitAt(u, k)
  }

  /** Length of the trailing digit run of `s`. */
  function DigitRun(s: string): (d: nat)
    ensures d <= |s|
  {
    TrailingCount(s, IsDigit)
  }

  /** Length of the whitespace run just before the trailing digits. */
  function SpaceRun(s: string): (w: nat)
    ensures DigitRun(s) + w <= |s|
  {
    TrailingCount(s[..|s| - DigitRun(s)], IsSpace)
  }

  /** `name.replace(/\s+\d+$/, "")`. */
  function StripTrailingNumber(s: string): string
  {
    var d := DigitRun(s);
    var w := SpaceRun(s);
    if d > 0 && w > 0 then s[..|s| - d - w] else s
  }

  /** No character is both whitespace and a digit. */
  lemma SpaceNotDigit(c: char)
    ensures !(IsSpace(c) && IsDigit(c))
  {
  }

  /** The characters of the two runs, read off `s` itself. */
  lemma RunsInS(s: string)
    ensures forall i :: |s| - DigitRun(s) <= i < |s| ==> IsDigit(s[i])
    ensures DigitRun(s) < |s| ==> !IsDigit(s[|s| - DigitRun(s) - 1])
    ensures forall i :: |s| - DigitRun(s) - SpaceRun(s) <= i < |s| - DigitRun(s) ==> IsSpace(s[i])
    ensures DigitRun(s) + SpaceRun(s) < |s| ==> !IsSpace(s[|s| - DigitRun(s) - SpaceRun(s) - 1])
  {
    var front := s[..|s| - DigitRun(s)];
    assert forall i :: 0 <= i < |front| ==> front[i] == s[i];
  }

  /** Any match of the pattern at the end of `s` starts inside the whitespace
      run and ends its whitespace where the digit run begins. */
  lemma MatchWithinRuns(s: string, j: nat)
    requires j <= |s| && SpaceDigits(s[j..])
    ensures DigitRun(s) > 0 && SpaceRun(s) > 0
    ensures |s| - DigitRun(s) - SpaceRun(s) <= j
  {
    RunsInS(s);
    var v := s[j..];
    var k :| 0 < k < |v| && SplitAt(v, k);
    assert forall m :: j + k <= m < |s| ==> IsDigit(s[m]) by {
      forall m | j + k <= m < |s| ensures IsDigit(s[m]) { assert v[m - j] == s[m]; }
    }
    assert forall m :: j <= m < j + k ==> IsSpace(s[m]) by {
      forall m | j <= m < j + k ensures IsSpace(s[m]) { assert v[m - j] == s[m]; }
    }
    SpaceNotDigit(s[j + k - 1]);
    assert j + k == |s| - DigitRun(s);
  }

  /** When both runs are non-empty, the suffix they form is a match. */
  lemma RunsMatch(s: string)
    requires DigitRun(s) > 0 && SpaceRun(s) > 0
    ensures SpaceDigits(s[|s| - DigitRun(s) - SpaceRun(s)..])
  {
    RunsInS(s);
    var start := |s| - DigitRun(s) - SpaceRun(s);
    var v := s[start..];
    assert forall m :: 0 <= m < |v| ==> v[m] == s[start + m];
    assert SplitAt(v, SpaceRun(s));
  }

  /** The strip removes the regex's leftmost match: the suffix starting at the
      first position from which the rest of the name is whitespace then digits;
      when there is no such position the name is unchanged. */
  lemma StripTrailingNumberMeaning(s: string)
    ensures (forall i :: 0 <= i <= |s| ==> !SpaceDigits(s[i..])) ==> StripTrailingNumber(s) == s
    ensures (exists i :: 0 <= i <= |s| && SpaceDigits(s[i..])) ==>
      exists i :: 0 <= i <= |s| && SpaceDigits(s[i..]) && StripTrailingNumber(s) == s[..i] &&
        forall j :: 0 <= j < i ==> !SpaceDigits(s[j..])
  {
    var start := |s| - DigitRun(s) - SpaceRun(s);
    if DigitRun(s) > 0 && SpaceRun(s) > 0 {
      RunsMatch(s);
      forall j | 0 <= j < start ensures !SpaceDigits(s[j..]) {
        if SpaceDigits(s[j..]) {
          MatchWithinRuns(s, j);
        }
      }
    } else if exists i :: 0 <= i <= |s| && SpaceDigits(s[i..]) {
      var i :| 0 <= i <= |s| && SpaceDigits(s[i..]);
      MatchWithinRuns(s, i);
    }
  }

  /** The new name of `applyNameSuffix`. */
  function SuffixedName(name: string, suffix: string): (r: string)
    ensures |r| >= |suffix| && r[|r| - |suffix|..] == suffix
  {
    StripTrailingNumber(name) + suffix
  }

  /** Effects whose display name marks them as colour keys are left alone by the FX toggle. */
  predicate Exempt(e: Effect)
  {
    Contains(e.name, "カラーキー") || Contains(e.name, "Color Key")
  }

  /** The state the toggle sets: the negation of the first non-exempt effect's state. */
  function ToggleTarget(fx: seq<Effect>): Option<bool>
  {
    match FirstWhere(fx, (e: Effect) => !Exempt(e))
    case None => None
    case Some(i) => Some(!fx[i].enabled)
  }

  /** `toggleFxEnabled` on the effect list: every non-exempt effect gets the target state. */
  function ToggledEffects(fx: seq<Effect>): (r: seq<Effect>)
    ensures |r| == |fx|
  {
    var target := ToggleTarget(fx);
    seq(|fx|, i requires 0 <= i < |fx| => if Exempt(fx[i]) || target.None? then fx[i] else fx[i].(enabled := target.value))
  }

  /** One effect after the toggle loop has passed it: exempt effects, effects
      seen before any target state was fixed, and effects whose write failed
      keep their state. */
  function ToggledAt(e: Effect, failed: bool, target: Option<bool>): Effect
  {
    if Exempt(e) || target.None? || failed then e else e.(enabled := target.value)
  }

  /** The toggle when the writes to the effects at the positions in `failing`
      throw: those effects keep their state, the others are toggled as usual.
      The target state is still read from the first non-exempt effect, since
      it is read before the write that may throw. */
  function ToggledEffectsFailing(fx: seq<Effect>, failing: set<nat>): (r: seq<Effect>)
    ensures |r| == |fx|
    ensures forall i :: 0 <= i < |fx| && i in failing ==> r[i] == fx[i]
    ensures failing == {} ==> r == ToggledEffects(fx)
  {
    var target := ToggleTarget(fx);
    seq(|fx|, i requires 0 <= i < |fx| => ToggledAt(fx[i], i in failing, target))
  }

  /** The toggle loop: the target state is fixed at the first non-exempt
      effect, and each write sits in its own `try`, so a failing write skips
      only that effect. */
  method ToggleEffects(fx: seq<Effect>, failing: set<nat>) returns (out: seq<Effect>)
    ensures out == ToggledEffectsFailing(fx, failing)
  {
    out := fx;
    var targetState: Option<bool> := None;
    var i := 0;
    while i < |fx|
      invariant 0 <= i <= |fx| && |out| == |fx|
      invariant targetState.None? <==> forall j :: 0 <= j < i ==> Exempt(fx[j])
      invariant targetState.Some? ==> targetState == ToggleTarget(fx)
      invariant forall j :: 0 <= j < i ==> out[j] == ToggledAt(fx[j], j in failing, targetState)
      invariant forall j :: i <= j < |fx| ==> out[j] == fx[j]
    {
      ghost var before, outBefore := targetState, out;
      if !Exempt(fx[i]) {
        if targetState.None? {
          FirstWhereIs(fx, (e: Effect) => !Exempt(e), i);
          targetState := Some(!fx[i].enabled);
        }
        if i !in failing {
          out := out[i := fx[i].(enabled := targetState.value)];
        }
      }
      forall j | 0 <= j <= i ensures out[j] == ToggledAt(fx[j], j in failing, targetState) {
        if j < i {
          assert out[j] == outBefore[j] == ToggledAt(fx[j], j in failing, before);
        }
      }
      i := i + 1;
    }
    assert targetState == ToggleTarget(fx);
  }

  /** Exempt effects keep their state, and every effect keeps its name. */
  lemma ToggledEffectsKeep(fx: seq<Effect>)
    ensures forall i :: 0 <= i < |fx| && Exempt(fx[i]) ==> ToggledEffects(fx)[i] == fx[i]
    ensures forall i :: 0 <= i < |fx| ==> ToggledEffects(fx)[i].name == fx[i].name
  {
    var r := ToggledEffects(fx);
    var target := ToggleTarget(fx);
    forall i | 0 <= i < |fx|
      ensures r[i] == if Exempt(fx[i]) || target.None? then fx[i] else fx[i].(enabled := target.value)
    {
    }
  }

  /** All non-exempt effects end in one common state, the opposite of the
      first one's old state. */
  lemma ToggledEffectsMeaning(fx: seq<Effect>)
    ensures forall i, j :: 0 <= i < |fx| && 0 <= j < |fx| && !Exempt(fx[i]) && !Exempt(fx[j]) ==>
      ToggledEffects(fx)[i].enabled == ToggledEffects(fx)[j].enabled
    ensures forall i :: 0 <= i < |fx| && !Exempt(fx[i]) ==>
      ToggledEffects(fx)[i].enabled == !fx[FirstWhere(fx, (e: Effect) => !Exempt(e)).value].enabled
  {
    var r := ToggledEffects(fx);
    var target := ToggleTarget(fx);
    forall i | 0 <= i < |fx| && !Exempt(fx[i])
      ensures target.Some? && r[i].enabled == target.value
    {
      assert ((e: Effect) => !Exempt(e))(fx[i]);
    }
  }

  /** When the non-exempt effects share one state, toggling twice restores every effect. */
  lemma ToggleTwiceRestores(fx: seq<Effect>)
    requires forall i, j :: 0 <= i < |fx| && 0 <= j < |fx| && !Exempt(fx[i]) && !Exempt(fx[j]) ==> fx[i].enabled == fx[j].enabled
    ensures ToggledEffects(ToggledEffects(fx)) == fx
  {
    var once := ToggledEffects(fx);
    FirstWhereAgrees(fx, (e: Effect) => !Exempt(e), once, (e: Effect) => !Exempt(e));
    var twice := ToggledEffects(once);
    forall i | 0 <= i < |fx| ensures twice[i] == fx[i] {
      if !Exempt(fx[i]) {
        var f := FirstWhere(fx, (e: Effect) => !Exempt(e)).value;
        assert fx[f].enabled == fx[i].enabled;
      }
    }
  }

  /** `app.findMenuCommandId(name)`: 0 for a name the host does not know. */
  function MenuId(menuIds: map<string, int>, name: string): int
  {
    if name in menuIds then menuIds[name] else 0
  }

  /** The localized menu names `addStyle` tries for a style, in order. */
  function MenuNames(styleId: string): seq<string>
  {
    match MenuCommandNames(styleId)
    case Some(names) => names
    case None => []
  }

  /** The legacy command id `addStyle` falls back to, when it is nonzero. */
  function FallbackCommand(styleId: string): (r: Option<int>)
    ensures r.Some? ==> r.value != 0
  {
    match FindStyleDef(styleId)
    case Some(def) => if def.cmdId.Some? && def.cmdId.value != 0 then def.cmdId else None
    case None => None
  }

  /** The command `addStyle` runs: the first localized menu name the host knows,
      else the style's legacy command id, else none. */
  function ChooseCommand(styleId: string, menuIds: map<string, int>): (r: Option<int>)
    ensures r.Some? ==> r.value != 0
  {
    var names := MenuNames(styleId);
    match FirstWhere(names, (n: string) => MenuId(menuIds, n) != 0)
    case Some(c) => Some(MenuId(menuIds, names[c]))
    case None => FallbackCommand(styleId)
  }

  /** The menu loop of `addStyle`. */
  method ChooseCommandLoop(styleId: string, menuIds: map<string, int>) returns (cmd: Option<int>)
    ensures cmd == ChooseCommand(styleId, menuIds)
  {
    var names := MenuNames(styleId);
    var c := 0;
    while c < |names|
      invariant 0 <= c <= |names|
      invariant forall j :: 0 <= j < c ==> MenuId(menuIds, names[j]) == 0
    {
      var id := MenuId(menuIds, names[c]);
      if id != 0 {
        FirstWhereIs(names, (n: string) => MenuId(menuIds, n) != 0, c);
        return Some(id);
      }
      c := c + 1;
    }
    cmd := FallbackCommand(styleId);
  }

  /** The whole-stack entry has no menu names and no legacy command, so it runs nothing. */
  lemma ChooseCommandMaster(menuIds: map<string, int>)
    ensures ChooseCommand(MasterStyleId, menuIds) == None
  {
    assert MenuCommandNames(MasterStyleId).None?;
    FindMasterDef();
  }

  /** Every other catalog style always runs a command, whatever menu names the host knows. */
  lemma ChooseCommandNonMaster(styleId: string, menuIds: map<string, int>)
    requires styleId in NonMasterIds()
    ensures ChooseCommand(styleId, menuIds).Some?
  {
    FallbackDefined(styleId);
  }

  /** Each non-master style has a nonzero legacy command to fall back to. */
  lemma FallbackDefined(styleId: string)
    requires styleId in NonMasterIds()
    ensures FallbackCommand(styleId).Some?
  {
    NonMasterIdButton(styleId);
    var i :| 0 <= i < 9 && StyleButtons[i].id == styleId;
    LegacyCommandAt(i);
    FindStyleDefAt(i);
  }

  /** What `removeStyle` clears, if its guard lets it through: the style's
      group when it exists and is enabled. */
  function RemoveTarget(l: Layer, styleId: string): (r: Option<StyleTarget>)
    ensures r.Some? ==> l.styles.Some? && ValidTarget(l.styles.value, r.value)
  {
    match l.styles
    case None => None
    case Some(s) =>
      match FindStyleDef(styleId)
      case None => None
      case Some(def) =>
        match GetStyleGroupProp(s, def)
        case None => None
        case Some(target) => if TargetEnabled(s, target) then Some(target) else None
  }

  /** The guard passes exactly for a present, enabled style. */
  lemma RemoveTargetMeaning(l: Layer, styleId: string)
    ensures l.styles.Some? && FindStyleDef(styleId).Some? ==>
      (RemoveTarget(l, styleId).Some? <==>
        var p := GetStyleGroupProp(l.styles.value, FindStyleDef(styleId).value);
        p.Some? && TargetEnabled(l.styles.value, p.value))
  {
  }

  /** For the whole-stack entry the guard passes whenever the stack is
      enabled, and then the whole stack is what gets cleared. */
  lemma RemoveTargetWholeStack(l: Layer)
    ensures l.styles.Some? ==>
      RemoveTarget(l, MasterStyleId) == (if l.styles.value.enabled then Some(WholeStack) else None)
  {
    FindMasterDef();
  }

  /** `togglePColor`'s new switch value: 0 when the switch reads 1 or true, else 1. */
  function ToggledSwitch(v: Value): Value
  {
    if v == Num(1.0) || v == Bool(true) then Num(0.0) else Num(1.0)
  }

  /** The switch always ends at 0 or 1, the opposite of a 0/1 reading; two toggles restore a 0/1 switch. */
  lemma ToggledSwitchMeaning(v: Value)
    ensures ToggledSwitch(v) == Num(0.0) || ToggledSwitch(v) == Num(1.0)
    ensures v == Num(0.0) ==> ToggledSwitch(v) == Num(1.0)
    ensures v == Num(1.0) ==> ToggledSwitch(v) == Num(0.0)
    ensures v == Num(0.0) || v == Num(1.0) ==> ToggledSwitch(ToggledSwitch(v)) == v
  {
  }

  /** `openPColorPicker` switches a slot on first when its switch reads 0 or false. */
  predicate NeedsAutoEnable(v: Value)
  {
    v == Num(0.0) || v == Bool(false)
  }

  /** The layer with parameter `param` (0-based) of effect `fx` (0-based) replaced. */
  function WithParam(l: Layer, fx: nat, param: nat, np: Prop): Layer
    requires l.effects.Some? && fx < |l.effects.value| && param < |l.effects.value[fx].params|
  {
    var e := l.effects.value[fx];
    l.(effects := Some(l.effects.value[fx := e.(params := e.params[param := np])]))
  }

  /** Replacing a parameter keeps the layer well formed when the new parameter is. */
  lemma WithParamValid(l: Layer, fx: nat, param: nat, np: Prop)
    requires ValidLayer(l) && ValidProp(np)
    requires l.effects.Some? && fx < |l.effects.value| && param < |l.effects.value[fx].params|
    ensures ValidLayer(WithParam(l, fx, param, np))
  {
    var l' := WithParam(l, fx, param, np);
    forall i | 0 <= i < |l'.effects.value| ensures ValidProps(l'.effects.value[i].params) {
      if i == fx {
        forall j | 0 <= j < |l'.effects.value[i].params| ensures ValidProp(l'.effects.value[i].params[j]) {
          if j != param {
            assert l'.effects.value[i].params[j] == l.effects.value[i].params[j];
          }
        }
      } else {
        assert l'.effects.value[i] == l.effects.value[i];
      }
    }
  }
}
