/** The host script's lookup helpers: finding a catalog entry by id, the
    style-group child a catalog entry stands for, a property by its candidate
    key suffixes, the keyframe navigation flags at a time, and the layer
    fingerprint the panel polls for changes. */
module AeftLookups {
  import opened Common
  import opened LayerStyleTypes
  import opened HostModel

  /** `findStyleDef`: the catalog entry with the given id. */
  function FindStyleDef(styleId: string): (r: Option<StyleButtonDef>)
    ensures r.Some? <==> exists i :: 0 <= i < |StyleButtons| && StyleButtons[i].id == styleId
    ensures r.Some? ==> r.value.id == styleId && r.value in StyleButtons
  {
    match FirstWhere(StyleButtons, (d: StyleButtonDef) => d.id == styleId)
    case None => None
    case Some(i) => Some(StyleButtons[i])
  }

  /** Ids are distinct, so each catalog id finds its own entry. */
  lemma FindStyleDefAt(i: nat)
    requires i < |StyleButtons|
    ensures FindStyleDef(StyleButtons[i].id) == Some(StyleButtons[i])
  {
    StyleButtonsShape();
    FirstWhereIs(StyleButtons, (d: StyleButtonDef) => d.id == StyleButtons[i].id, i);
  }

  /** The whole-stack id finds the last catalog entry. */
  lemma FindMasterDef()
    ensures FindStyleDef(MasterStyleId) == Some(StyleButtons[9])
  {
    assert forall j :: 0 <= j < 9 ==> StyleButtons[j].id != MasterStyleId;
    FirstWhereIs(StyleButtons, (d: StyleButtonDef) => d.id == MasterStyleId, 9);
  }

  /** What `getStyleGroupProp` hands back: the style group itself, or one of its children. */
  datatype StyleTarget = WholeStack | Child(index: nat)

  predicate DefMatches(e: StyleEntry, d: StyleButtonDef)
  {
    e.matchName == d.matchName || e.matchName == d.fallback
  }

  predicate ValidTarget(s: StyleStack, t: StyleTarget)
  {
    t.Child? ==> t.index < |s.children|
  }

  /** `getStyleGroupProp`: the whole stack for the master entry, otherwise the
      first child whose match name is the entry's current or legacy match name. */
  function GetStyleGroupProp(s: StyleStack, d: StyleButtonDef): (r: Option<StyleTarget>)
    ensures d.id == MasterStyleId ==> r == Some(WholeStack)
    ensures r.Some? ==> ValidTarget(s, r.value)
    ensures d.id != MasterStyleId && r.Some? ==>
      r.value.Child? && r.value.index < |s.children| && DefMatches(s.children[r.value.index], d) &&
      forall j :: 0 <= j < r.value.index ==> !DefMatches(s.children[j], d)
    ensures d.id != MasterStyleId ==>
      (r.None? <==> forall j :: 0 <= j < |s.children| ==> !DefMatches(s.children[j], d))
  {
    if d.id == MasterStyleId then Some(WholeStack)
    else match FirstWhere(s.children, (e: StyleEntry) => DefMatches(e, d))
      case None => None
      case Some(i) => Some(Child(i))
  }

  /** The `enabled` flag of a target. */
  function TargetEnabled(s: StyleStack, t: StyleTarget): bool
    requires ValidTarget(s, t)
  {
    match t
    case WholeStack => s.enabled
    case Child(i) => s.children[i].enabled
  }

  /** The properties under a target (the whole stack has none a definition can name). */
  function TargetProps(s: StyleStack, t: StyleTarget): seq<Prop>
    requires ValidTarget(s, t)
  {
    match t
    case WholeStack => []
    case Child(i) => s.children[i].props
  }

  /** The fallback test of `findPropInGroup`: the suffix occurs, ignoring ASCII
      case, in the child's match name or display name. */
  predicate ScanMatches(p: Prop, sfx: string)
  {
    Contains(Lower(p.matchName), Lower(sfx)) || Contains(Lower(p.name), Lower(sfx))
  }

  /** One suffix of `findPropInGroup`: `property("ADBE " + sfx)`, then
      `property(sfx)`, then the first child the substring test accepts. */
  function FindByKey(ps: seq<Prop>, sfx: string): (r: Option<nat>)
    ensures r.Some? ==> r.value < |ps|
  {
    match PropNamed(ps, "ADBE " + sfx)
    case Some(i) => Some(i)
    case None =>
      match PropNamed(ps, sfx)
      case Some(i) => Some(i)
      case None => FirstWhere(ps, (p: Prop) => ScanMatches(p, sfx))
  }

  /** A child that `property(name)` would return for `"ADBE " + sfx` or `sfx` also passes the substring test. */
  lemma ExactNameScanMatches(p: Prop, sfx: string)
    requires p.matchName == "ADBE " + sfx || p.name == "ADBE " + sfx || p.matchName == sfx || p.name == sfx
    ensures ScanMatches(p, sfx)
  {
    LowerAppend("ADBE ", sfx);
    ContainsSuffix(Lower("ADBE "), Lower(sfx));
    ContainsSuffix([], Lower(sfx));
    assert [] + Lower(sfx) == Lower(sfx);
  }

  /** Which child a suffix finds: the first child answering to `"ADBE " + sfx`;
      failing that, the first answering to `sfx`; failing both, the first
      child the substring test accepts. Whatever it finds passes that test,
      so a child is found exactly when some child passes it. */
  lemma FindByKeyMeaning(ps: seq<Prop>, sfx: string)
    ensures var r := FindByKey(ps, sfx);
      (exists i :: 0 <= i < |ps| && PropIs(ps[i], "ADBE " + sfx)) ==>
        r.Some? && PropIs(ps[r.value], "ADBE " + sfx) &&
        forall j :: 0 <= j < r.value ==> !PropIs(ps[j], "ADBE " + sfx)
    ensures var r := FindByKey(ps, sfx);
      (forall i :: 0 <= i < |ps| ==> !PropIs(ps[i], "ADBE " + sfx)) &&
      (exists i :: 0 <= i < |ps| && PropIs(ps[i], sfx)) ==>
        r.Some? && PropIs(ps[r.value], sfx) && forall j :: 0 <= j < r.value ==> !PropIs(ps[j], sfx)
    ensures var r := FindByKey(ps, sfx);
      (forall i :: 0 <= i < |ps| ==> !PropIs(ps[i], "ADBE " + sfx) && !PropIs(ps[i], sfx)) && r.Some? ==>
        forall j :: 0 <= j < r.value ==> !ScanMatches(ps[j], sfx)
    ensures FindByKey(ps, sfx).Some? ==> ScanMatches(ps[FindByKey(ps, sfx).value], sfx)
    ensures FindByKey(ps, sfx).None? <==> forall i :: 0 <= i < |ps| ==> !ScanMatches(ps[i], sfx)
  {
    match PropNamed(ps, "ADBE " + sfx)
    case Some(i) => ExactNameScanMatches(ps[i], sfx);
    case None =>
      match PropNamed(ps, sfx)
      case Some(i) => ExactNameScanMatches(ps[i], sfx);
      case None =>
  }

  /** `findPropInGroup`: the candidate suffixes are tried in order; the first that finds a child wins. */
  function FindPropInGroup(ps: seq<Prop>, keys: seq<string>): (r: Option<nat>)
    ensures r.Some? ==> r.value < |ps|
  {
    if keys == [] then None
    else match FindByKey(ps, keys[0])
      case Some(i) => Some(i)
      case None => FindPropInGroup(ps, keys[1..])
  }

  /** Nothing is found exactly when no suffix occurs in any child's names.
      Otherwise the result is what the first suffix that finds anything finds
      on its own: it matches that suffix, and every earlier suffix matched
      nothing. */
  lemma {:induction false} FindPropInGroupMeaning(ps: seq<Prop>, keys: seq<string>)
    ensures FindPropInGroup(ps, keys).None? <==>
      forall k, i :: 0 <= k < |keys| && 0 <= i < |ps| ==> !ScanMatches(ps[i], keys[k])
    ensures FindPropInGroup(ps, keys).Some? ==>
      exists k :: 0 <= k < |keys| && FindPropInGroup(ps, keys) == FindByKey(ps, keys[k]) &&
        ScanMatches(ps[FindPropInGroup(ps, keys).value], keys[k]) &&
        forall k', i :: 0 <= k' < k && 0 <= i < |ps| ==> !ScanMatches(ps[i], keys[k'])
  {
    if keys != [] {
      FindByKeyMeaning(ps, keys[0]);
      if FindByKey(ps, keys[0]).None? {
        FindPropInGroupMeaning(ps, keys[1..]);
        var r := FindPropInGroup(ps, keys);
        assert r == FindPropInGroup(ps, keys[1..]);
        if r.Some? {
          var k :| 0 <= k < |keys[1..]| && r == FindByKey(ps, keys[1..][k]) && ScanMatches(ps[r.value], keys[1..][k]) &&
            forall k', i :: 0 <= k' < k && 0 <= i < |ps| ==> !ScanMatches(ps[i], keys[1..][k']);
          assert keys[1..][k] == keys[k + 1];
          forall k', i | 0 <= k' < k + 1 && 0 <= i < |ps| ensures !ScanMatches(ps[i], keys[k']) {
            if k' > 0 { assert keys[1..][k' - 1] == keys[k']; }
          }
        } else {
          forall k, i | 0 <= k < |keys| && 0 <= i < |ps| ensures !ScanMatches(ps[i], keys[k]) {
            if k > 0 { assert keys[1..][k - 1] == keys[k]; }
          }
        }
      } else {
        assert ScanMatches(ps[FindPropInGroup(ps, keys).value], keys[0]);
      }
    }
  }

  /** The flags `getKeyframeInfo` returns. */
  datatype KeyInfo = KeyInfo(onKey: bool, hasPrev: bool, hasNext: bool)

  /** Distance within which the current time counts as sitting on a keyframe. */
  const OnKeyTolerance: real := 0.005

  /** `getKeyframeInfo` once the nearest key `idx` is known. */
  function KeyInfoAt(keys: seq<Key>, t: real, idx: int): KeyInfo
    requires 1 <= idx <= |keys|
  {
    var kt := KeyTime(keys, idx);
    if Abs(kt - t) < OnKeyTolerance then KeyInfo(true, idx > 1, idx < |keys|)
    else if kt < t then KeyInfo(false, true, idx < |keys|)
    else KeyInfo(false, idx > 1, true)
  }

  /** `getKeyframeInfo(prop, t)`. */
  function GetKeyframeInfo(p: Prop, t: real): (r: KeyInfo)
    ensures !p.canVary || |p.keys| == 0 ==> r == KeyInfo(false, false, false)
  {
    if !p.canVary || |p.keys| == 0 then KeyInfo(false, false, false)
    else KeyInfoAt(p.keys, t, NearestKeyIndex(p.keys, t))
  }

  /** "On a key" means some key lies within the tolerance of `t`, whichever key is nearest. */
  lemma KeyInfoOnKey(keys: seq<Key>, t: real, idx: int)
    requires IsNearest(keys, t, idx)
    ensures KeyInfoAt(keys, t, idx).onKey <==> exists i :: 0 <= i < |keys| && Abs(keys[i].time - t) < OnKeyTolerance
  {
    if exists i :: 0 <= i < |keys| && Abs(keys[i].time - t) < OnKeyTolerance {
      var i :| 0 <= i < |keys| && Abs(keys[i].time - t) < OnKeyTolerance;
      assert Abs(KeyTime(keys, idx) - t) <= Abs(KeyTime(keys, i + 1) - t);
    }
  }

  /** Off a key, "previous" and "next" mean a key strictly before and after `t` exists. */
  lemma KeyInfoOffKey(keys: seq<Key>, t: real, idx: int)
    requires Increasing(keys) && IsNearest(keys, t, idx)
    requires !KeyInfoAt(keys, t, idx).onKey
    ensures KeyInfoAt(keys, t, idx).hasPrev <==> exists i :: 0 <= i < |keys| && keys[i].time < t
    ensures KeyInfoAt(keys, t, idx).hasNext <==> exists i :: 0 <= i < |keys| && keys[i].time > t
  {
    var kt := KeyTime(keys, idx);
    if kt < t {
      if idx < |keys| {
        assert Abs(kt - t) <= Abs(KeyTime(keys, idx + 1) - t);
        assert keys[idx].time > t;
      }
      if exists i :: 0 <= i < |keys| && keys[i].time > t {
        var i :| 0 <= i < |keys| && keys[i].time > t;
        assert i + 1 > idx;
      }
    } else {
      if idx > 1 {
        assert Abs(kt - t) <= Abs(KeyTime(keys, idx - 1) - t);
        assert keys[idx - 2].time < t;
      }
      if exists i :: 0 <= i < |keys| && keys[i].time < t {
        var i :| 0 <= i < |keys| && keys[i].time < t;
        assert i + 1 < idx;
      }
    }
  }

  /** On a key, "previous" and "next" mean a key before and after the one the playhead sits on. */
  lemma KeyInfoOnKeyNeighbours(keys: seq<Key>, t: real, idx: int)
    requires Increasing(keys) && IsNearest(keys, t, idx)
    requires KeyInfoAt(keys, t, idx).onKey
    ensures KeyInfoAt(keys, t, idx).hasPrev <==> exists i :: 0 <= i < |keys| && keys[i].time < KeyTime(keys, idx)
    ensures KeyInfoAt(keys, t, idx).hasNext <==> exists i :: 0 <= i < |keys| && keys[i].time > KeyTime(keys, idx)
  {
    var kt := KeyTime(keys, idx);
    if idx > 1 {
      assert keys[0].time < kt;
    }
    if idx < |keys| {
      assert keys[|keys| - 1].time > kt;
    }
    if exists i :: 0 <= i < |keys| && keys[i].time < kt {
      var i :| 0 <= i < |keys| && keys[i].time < kt;
      assert i + 1 < idx;
    }
    if exists i :: 0 <= i < |keys| && keys[i].time > kt {
      var i :| 0 <= i < |keys| && keys[i].time > kt;
      assert i + 1 > idx;
    }
  }

  /** One '1' or '0' per child, for its `enabled` flag. */
  function EnabledBits(cs: seq<StyleEntry>): (r: string)
    ensures |r| == |cs|
    ensures forall i :: 0 <= i < |cs| ==> (r[i] == '1' <==> cs[i].enabled) && (r[i] == '0' <==> !cs[i].enabled)
  {
    if cs == [] then ""
    else [if cs[0].enabled then '1' else '0'] + EnabledBits(cs[1..])
  }

  /** The part of the fingerprint contributed by the style stack. */
  function StyleHashPart(styles: Option<StyleStack>): string
  {
    match styles
    case None => ""
    case Some(s) => "_S" + DecimalString(|s.children|) + EnabledBits(s.children)
  }

  /** The part of the fingerprint contributed by the effect stack. */
  function EffectHashPart(effects: Option<seq<Effect>>): string
  {
    match effects
    case None => ""
    case Some(fx) => "_F" + DecimalString(|fx|)
  }

  /** `getLayerHash`: `<comp id>_<layer index>`, then `_S<count><enabled bits>`
      when the layer has a style stack and `_F<count>` when it has an effect stack. */
  function GetLayerHash(compId: nat, l: Layer): string
  {
    DecimalString(compId) + "_" + DecimalString(l.index) + StyleHashPart(l.styles) + EffectHashPart(l.effects)
  }

  /** Where the enabled bits start in the fingerprint of a layer with a style stack. */
  function BitsOffset(compId: nat, l: Layer): nat
    requires l.styles.Some?
  {
    |DecimalString(compId) + "_" + DecimalString(l.index) + "_S" + DecimalString(|l.styles.value.children|)|
  }

  /** The fingerprint carries child `i`'s enabled flag at offset `BitsOffset + i`. */
  lemma HashBitAt(compId: nat, l: Layer, i: nat)
    requires l.styles.Some? && i < |l.styles.value.children|
    ensures var h := GetLayerHash(compId, l);
      BitsOffset(compId, l) + i < |h| &&
      h[BitsOffset(compId, l) + i] == (if l.styles.value.children[i].enabled then '1' else '0')
  {
    var s := l.styles.value;
    var pre := DecimalString(compId) + "_" + DecimalString(l.index) + "_S" + DecimalString(|s.children|);
    var b := EnabledBits(s.children);
    assert GetLayerHash(compId, l) == pre + (b + EffectHashPart(l.effects));
    assert (b + EffectHashPart(l.effects))[i] == b[i];
  }

  /** Turning one style on or off changes the fingerprint, so the poller notices it. */
  lemma LayerHashSeesEnable(compId: nat, l: Layer, i: nat)
    requires l.styles.Some? && i < |l.styles.value.children|
    ensures var s := l.styles.value;
      var c := s.children[i];
      GetLayerHash(compId, l.(styles := Some(s.(children := s.children[i := c.(enabled := !c.enabled)])))) !=
      GetLayerHash(compId, l)
  {
    var s := l.styles.value;
    var c := s.children[i];
    var l' := l.(styles := Some(s.(children := s.children[i := c.(enabled := !c.enabled)])));
    HashBitAt(compId, l, i);
    HashBitAt(compId, l', i);
    assert BitsOffset(compId, l') == BitsOffset(compId, l);
  }

  /** Distinct counts print as distinct decimal strings. */
  lemma {:induction false} DecimalStringInjective(a: nat, b: nat)
    requires DecimalString(a) == DecimalString(b)
    ensures a == b
    decreases a
  {
    var da := DecimalString(a);
    assert |DecimalString(a)| == 1 <==> a < 10;
    assert |DecimalString(b)| == 1 <==> b < 10;
    if a < 10 {
      assert da == [DigitChar(a)] && DecimalString(b) == [DigitChar(b)];
    } else {
      var pa := DecimalString(a / 10);
      var pb := DecimalString(b / 10);
      assert da == pa + [DigitChar(a % 10)];
      assert DecimalString(b) == pb + [DigitChar(b % 10)];
      assert |pa| == |pb|;
      assert pa == da[..|pa|] && pb == da[..|pa|];
      assert DigitChar(a % 10) == DigitChar(b % 10);
      DecimalStringInjective(a / 10, b / 10);
    }
  }

  /** Adding or removing an effect changes the fingerprint. */
  lemma LayerHashSeesEffectCount(compId: nat, l: Layer, fx: seq<Effect>)
    requires l.effects.Some? && |fx| != |l.effects.value|
    ensures GetLayerHash(compId, l.(effects := Some(fx))) != GetLayerHash(compId, l)
  {
    var pre := DecimalString(compId) + "_" + DecimalString(l.index) + StyleHashPart(l.styles) + "_F";
    var d := DecimalString(|l.effects.value|);
    var d' := DecimalString(|fx|);
    var h := GetLayerHash(compId, l);
    var h' := GetLayerHash(compId, l.(effects := Some(fx)));
    assert h == pre + d && h' == pre + d';
    if h == h' {
      assert d == h[|pre|..] && d' == h'[|pre|..];
      DecimalStringInjective(|fx|, |l.effects.value|);
    }
  }

  /** Longer numbers never print shorter. */
  lemma {:induction false} DecimalStringLengthMono(a: nat, b: nat)
    requires a <= b
    ensures |DecimalString(a)| <= |DecimalString(b)|
    decreases b
  {
    if b >= 10 && a >= 10 {
      DecimalStringLengthMono(a / 10, b / 10);
    }
  }

  /** Adding or removing a style changes the fingerprint: the count and its bits
      together grow strictly with the number of children. */
  lemma LayerHashSeesStyleCount(compId: nat, l: Layer, cs: seq<StyleEntry>)
    requires l.styles.Some? && |cs| != |l.styles.value.children|
    ensures GetLayerHash(compId, l.(styles := Some(l.styles.value.(children := cs)))) != GetLayerHash(compId, l)
  {
    var n := |l.styles.value.children|;
    if |cs| < n { DecimalStringLengthMono(|cs|, n); } else { DecimalStringLengthMono(n, |cs|); }
    var h := GetLayerHash(compId, l);
    var h' := GetLayerHash(compId, l.(styles := Some(l.styles.value.(children := cs))));
    assert |h| != |h'|;
  }
}
