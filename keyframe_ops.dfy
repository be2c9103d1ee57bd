/** The body `operateKeyframe` and `operateFillOpacityKeyframe` share: one
    keyframe action applied to one property at the current time. The result
    is the property afterwards and the composition time afterwards (only
    "prev" and "next" move the time). */
module KeyframeOps {
  import opened Common
  import opened LayerStyleTypes
  import opened HostModel
  import opened AeftLookups

  /** Distance within which a key counts as the key at the current time (used by "remove"). */
  const RemoveTolerance: real := 0.005
  /** Distance within which "prev"/"next" step over the nearest key. */
  const StepTolerance: real := 0.001

  datatype KeyOutcome = KeyOutcome(prop: Prop, time: real)

  /** Every key set to hold interpolation on both sides; times and values kept. */
  function AllHold(keys: seq<Key>): (r: seq<Key>)
    ensures |r| == |keys|
  {
    seq(|keys|, i requires 0 <= i < |keys| => keys[i].(inInterp := Hold, outInterp := Hold))
  }

  /** The "hold_all" loop: `setInterpolationTypeAtKey(k, HOLD, HOLD)` for k = 1..numKeys. */
  method HoldAllKeys(keys: seq<Key>) returns (out: seq<Key>)
    ensures |out| == |keys|
    ensures forall i :: 0 <= i < |keys| ==>
      out[i].time == keys[i].time && out[i].value == keys[i].value &&
      out[i].inInterp == Hold && out[i].outInterp == Hold
    ensures out == AllHold(keys)
  {
    out := keys;
    var k := 1;
    while k <= |keys|
      invariant 1 <= k <= |keys| + 1
      invariant |out| == |keys|
      invariant forall i :: 0 <= i < k - 1 ==> out[i] == keys[i].(inInterp := Hold, outInterp := Hold)
      invariant forall i :: k - 1 <= i < |keys| ==> out[i] == keys[i]
    {
      out := HoldKey(out, k);
      k := k + 1;
    }
  }

  /** Holding every key keeps the times, so the keys stay in order. */
  lemma AllHoldIncreasing(keys: seq<Key>)
    requires Increasing(keys)
    ensures Increasing(AllHold(keys))
  {
  }

  /** The key "prev" moves to, counted from the nearest key `idx` (0: none). */
  function PrevIndex(keys: seq<Key>, t: real, idx: int): int
    requires 1 <= idx <= |keys|
  {
    if KeyTime(keys, idx) >= t - StepTolerance then idx - 1 else idx
  }

  /** The key "next" moves to, counted from the nearest key `idx` (past the end: none). */
  function NextIndex(keys: seq<Key>, t: real, idx: int): int
    requires 1 <= idx <= |keys|
  {
    if KeyTime(keys, idx) <= t + StepTolerance then idx + 1 else idx
  }

  /** One action at time `t`, given the nearest key `idx` (any value when there are no keys). */
  function KeyframeEffectAt(p: Prop, t: real, action: KeyframeAction, idx: int): KeyOutcome
    requires |p.keys| > 0 ==> 1 <= idx <= |p.keys|
  {
    match action
    case Add => KeyOutcome(SetValueAtTime(p, t, p.value), t)
    case Remove =>
      if |p.keys| > 0 && Abs(KeyTime(p.keys, idx) - t) < RemoveTolerance then KeyOutcome(RemoveKey(p, idx), t)
      else KeyOutcome(p, t)
    case Prev =>
      if |p.keys| > 0 && PrevIndex(p.keys, t, idx) > 0 then KeyOutcome(p, KeyTime(p.keys, PrevIndex(p.keys, t, idx)))
      else KeyOutcome(p, t)
    case Next =>
      if |p.keys| > 0 && NextIndex(p.keys, t, idx) <= |p.keys| then KeyOutcome(p, KeyTime(p.keys, NextIndex(p.keys, t, idx)))
      else KeyOutcome(p, t)
    case HoldAll => KeyOutcome(p.(keys := AllHold(p.keys)), t)
  }

  /** The shared body: an unknown action string does nothing. */
  function KeyframeEffect(p: Prop, t: real, action: Option<KeyframeAction>): KeyOutcome
  {
    match action
    case None => KeyOutcome(p, t)
    case Some(a) => KeyframeEffectAt(p, t, a, if |p.keys| > 0 then NearestKeyIndex(p.keys, t) else 0)
  }

  /** The shared body as the host runs it, with the "hold_all" loop. */
  method OperateOn(p: Prop, t: real, action: Option<KeyframeAction>) returns (out: KeyOutcome)
    ensures out == KeyframeEffect(p, t, action)
  {
    out := KeyOutcome(p, t);
    if action == Some(HoldAll) {
      var held := HoldAllKeys(p.keys);
      out := KeyOutcome(p.(keys := held), t);
    } else if action.Some? {
      out := KeyframeEffectAt(p, t, action.value, if |p.keys| > 0 then NearestKeyIndex(p.keys, t) else 0);
    }
  }

  /** "prev" and "next" change only the time; the other actions change only the property. */
  lemma EffectKinds(p: Prop, t: real, action: KeyframeAction, idx: int)
    requires |p.keys| > 0 ==> 1 <= idx <= |p.keys|
    ensures action == Prev || action == Next ==> KeyframeEffectAt(p, t, action, idx).prop == p
    ensures action != Prev && action != Next ==> KeyframeEffectAt(p, t, action, idx).time == t
    ensures (action == Prev || action == Next) && |p.keys| == 0 ==> KeyframeEffectAt(p, t, action, idx).time == t
  {
  }

  /** "prev" lands on a key strictly before `t`, whichever key is nearest. */
  lemma PrevMovesBackward(p: Prop, t: real, idx: int)
    requires Increasing(p.keys) && |p.keys| > 0 && IsNearest(p.keys, t, idx)
    ensures var r := KeyframeEffectAt(p, t, Prev, idx);
      r.time != t ==> r.time < t && exists i :: 0 <= i < |p.keys| && p.keys[i].time == r.time
  {
    var j := PrevIndex(p.keys, t, idx);
    if j > 0 {
      if j == idx - 1 {
        assert Abs(KeyTime(p.keys, idx) - t) <= Abs(KeyTime(p.keys, j) - t);
        assert KeyTime(p.keys, j) < KeyTime(p.keys, idx);
      }
      assert p.keys[j - 1].time == KeyTime(p.keys, j);
    }
  }

  /** "next" lands on a key strictly after `t`, whichever key is nearest. */
  lemma NextMovesForward(p: Prop, t: real, idx: int)
    requires Increasing(p.keys) && |p.keys| > 0 && IsNearest(p.keys, t, idx)
    ensures var r := KeyframeEffectAt(p, t, Next, idx);
      r.time != t ==> r.time > t && exists i :: 0 <= i < |p.keys| && p.keys[i].time == r.time
  {
    var j := NextIndex(p.keys, t, idx);
    if j <= |p.keys| {
      if j == idx + 1 {
        assert Abs(KeyTime(p.keys, idx) - t) <= Abs(KeyTime(p.keys, j) - t);
        assert KeyTime(p.keys, j) > KeyTime(p.keys, idx);
      }
      assert p.keys[j - 1].time == KeyTime(p.keys, j);
    }
  }

  /** With no key before `t` "prev" stays put; with no key after `t` "next" stays put. */
  lemma StepNeedsKey(p: Prop, t: real, idx: int)
    requires Increasing(p.keys) && |p.keys| > 0 && IsNearest(p.keys, t, idx)
    ensures (forall i :: 0 <= i < |p.keys| ==> p.keys[i].time >= t) ==> KeyframeEffectAt(p, t, Prev, idx).time == t
    ensures (forall i :: 0 <= i < |p.keys| ==> p.keys[i].time <= t) ==> KeyframeEffectAt(p, t, Next, idx).time == t
  {
    PrevMovesBackward(p, t, idx);
    NextMovesForward(p, t, idx);
  }

  /** "remove" deletes a key exactly when some key lies within the tolerance of
      `t`, and then deletes only the nearest one; otherwise nothing changes. */
  lemma RemoveOnlyNear(p: Prop, t: real, idx: int)
    requires |p.keys| > 0 ==> IsNearest(p.keys, t, idx)
    ensures var r := KeyframeEffectAt(p, t, Remove, idx).prop;
      if exists i :: 0 <= i < |p.keys| && Abs(p.keys[i].time - t) < RemoveTolerance
      then |r.keys| + 1 == |p.keys| && Abs(p.keys[idx - 1].time - t) < RemoveTolerance &&
           r.keys == p.keys[..idx - 1] + p.keys[idx..] && r.value == p.value
      else r == p
  {
    if exists i :: 0 <= i < |p.keys| && Abs(p.keys[i].time - t) < RemoveTolerance {
      var i :| 0 <= i < |p.keys| && Abs(p.keys[i].time - t) < RemoveTolerance;
      assert Abs(KeyTime(p.keys, idx) - t) <= Abs(KeyTime(p.keys, i + 1) - t);
    } else if |p.keys| > 0 {
      assert !(Abs(p.keys[idx - 1].time - t) < RemoveTolerance);
    }
  }

  /** "add" leaves a key at `t` carrying the property's current value, and the
      keys stay in order. */
  lemma AddKeysAtTime(p: Prop, t: real)
    requires Increasing(p.keys)
    ensures var r := KeyframeEffect(p, t, Some(Add)).prop;
      Increasing(r.keys) && r.value == p.value &&
      exists i :: 0 <= i < |r.keys| && r.keys[i].time == t && r.keys[i].value == p.value
  {
    var k := Key(t, p.value, Linear, Linear);
    InsertKeyIncreasing(p.keys, k);
    var j := CountBefore(p.keys, t);
    if HasKeyAt(p.keys, t) {
      InsertKeyReplaces(p.keys, k);
      assert InsertKey(p.keys, k)[j] == p.keys[j].(value := p.value);
    } else {
      InsertKeyInserts(p.keys, k);
      assert InsertKey(p.keys, k)[j] == k;
    }
  }

  /** Adding a key where there was none and then removing the key at the same
      time gives back the property exactly, whichever key the host reports as nearest. */
  lemma AddThenRemove(p: Prop, t: real, idx: int)
    requires Increasing(p.keys) && !HasKeyAt(p.keys, t)
    requires var q := KeyframeEffect(p, t, Some(Add)).prop; IsNearest(q.keys, t, idx)
    ensures var q := KeyframeEffect(p, t, Some(Add)).prop;
      KeyframeEffectAt(q, t, Remove, idx).prop == p
  {
    var q := KeyframeEffect(p, t, Some(Add)).prop;
    assert q == SetValueAtTime(p, t, p.value);
    InsertThenRemoveKey(p.keys, Key(t, p.value, Linear, Linear), idx);
    assert Abs(KeyTime(q.keys, idx) - t) < RemoveTolerance;
  }

  /** The two tolerances disagree: with keys at 0 and 1 and the playhead at
      1.003, the panel reports the playhead on the key at 1 with a previous key
      at 0, yet "prev" moves to 1, the key it is already on. */
  lemma TwoTolerances()
    ensures var keys := [Key(0.0, Num(0.0), Linear, Linear), Key(1.0, Num(1.0), Linear, Linear)];
      var p := Prop("ADBE Opacity", "Opacity", OneD, Num(1.0), true, keys);
      IsNearest(keys, 1.003, 2) &&
      GetKeyframeInfo(p, 1.003) == KeyInfo(true, true, false) &&
      KeyframeEffectAt(p, 1.003, Prev, 2).time == 1.0
  {
  }
}
