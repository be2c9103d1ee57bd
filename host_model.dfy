/** The After Effects host, seen only through what the host script uses:
    a composition with a time indicator, a layer with an optional style stack
    (ordered style groups, each with an enabled bit and property children)
    and an optional effect stack, and properties that carry a value, a
    "can vary over time" bit and keyframes at strictly increasing times.
    The host's own primitives (`setValue`, `setValueAtTime`, `removeKey`,
    `setInterpolationTypeAtKey`, `nearestKeyIndex`, `property(name)`) are
    given here as functions with the behaviour the script relies on. */
module HostModel {
  import opened Common
  import opened LayerStyleTypes

  datatype Interp = Linear | Bezier | Hold

  datatype Key = Key(time: real, value: Value, inInterp: Interp, outInterp: Interp)

  /** `PropertyValueType`, reduced to the cases the script tests for. */
  datatype ValueType = OneD | ColorType | OtherType

  datatype Prop = Prop(
    matchName: string,
    name: string,
    valueType: ValueType,
    value: Value,
    canVary: bool,
    keys: seq<Key>)

  /** One child of the "ADBE Layer Styles" group. */
  datatype StyleEntry = StyleEntry(matchName: string, name: string, enabled: bool, props: seq<Prop>)

  /** The "ADBE Layer Styles" group; the fill-opacity property is the one found under
      "ADBE Blend Options Group" / "ADBE Adv Blend Group" (current or legacy match name). */
  datatype StyleStack = StyleStack(enabled: bool, children: seq<StyleEntry>, fillOpacity: Option<Prop>)

  /** One child of the "ADBE Effect Parade" group. */
  datatype Effect = Effect(name: string, matchName: string, enabled: bool, params: seq<Prop>)

  datatype Layer = Layer(
    index: nat,
    name: string,
    solo: bool,
    styles: Option<StyleStack>,
    effects: Option<seq<Effect>>)

  datatype Comp = Comp(id: nat, time: real, duration: real, frameDuration: real)

  /** Keyframe times strictly increase. */
  predicate Increasing(keys: seq<Key>)
  {
    forall i, j :: 0 <= i < j < |keys| ==> keys[i].time < keys[j].time
  }

  /** A property that cannot vary over time has no keyframes. */
  predicate ValidProp(p: Prop)
  {
    Increasing(p.keys) && (!p.canVary ==> p.keys == [])
  }

  predicate ValidProps(ps: seq<Prop>)
  {
    forall i :: 0 <= i < |ps| ==> ValidProp(ps[i])
  }

  predicate ValidStack(s: StyleStack)
  {
    (forall i :: 0 <= i < |s.children| ==> ValidProps(s.children[i].props)) &&
    (s.fillOpacity.Some? ==> ValidProp(s.fillOpacity.value))
  }

  predicate ValidLayer(l: Layer)
  {
    (l.styles.Some? ==> ValidStack(l.styles.value)) &&
    (l.effects.Some? ==> forall i :: 0 <= i < |l.effects.value| ==> ValidProps(l.effects.value[i].params))
  }

  predicate ValidComp(c: Comp)
  {
    0.0 <= c.duration && 0.0 < c.frameDuration
  }

  /** `keyTime(idx)`: keyframe indices are 1-based. */
  function KeyTime(keys: seq<Key>, idx: int): real
    requires 1 <= idx <= |keys|
  {
    keys[idx - 1].time
  }

  /** `idx` is a keyframe index whose time is as close to `t` as any other. */
  predicate IsNearest(keys: seq<Key>, t: real, idx: int)
  {
    1 <= idx <= |keys| &&
    forall j :: 1 <= j <= |keys| ==> Abs(KeyTime(keys, idx) - t) <= Abs(KeyTime(keys, j) - t)
  }

  /** `nearestKeyIndex(t)`. The host does not document how it breaks a tie
      between two equally distant keys; this one takes the earlier key. */
  function NearestKeyIndex(keys: seq<Key>, t: real): (idx: nat)
    requires |keys| > 0
    ensures IsNearest(keys, t, idx)
    decreases |keys|
  {
    if |keys| == 1 then 1
    else
      var front := keys[..|keys| - 1];
      var r := NearestKeyIndex(front, t);
      assert forall j :: 1 <= j <= |front| ==> KeyTime(front, j) == KeyTime(keys, j);
      if Abs(KeyTime(keys, |keys|) - t) < Abs(KeyTime(keys, r) - t) then |keys| else r
  }

  /** Number of keyframes strictly before `t`: the 0-based position where a key at `t` belongs. */
  function CountBefore(keys: seq<Key>, t: real): (n: nat)
    ensures n <= |keys|
  {
    if keys == [] || keys[0].time >= t then 0 else 1 + CountBefore(keys[1..], t)
  }

  /** The keys are split by `t` at `CountBefore(keys, t)`. */
  lemma {:induction false} CountBeforeSplits(keys: seq<Key>, t: real)
    requires Increasing(keys)
    ensures forall i :: 0 <= i < CountBefore(keys, t) ==> keys[i].time < t
    ensures forall i :: CountBefore(keys, t) <= i < |keys| ==> keys[i].time >= t
  {
    if keys != [] && keys[0].time < t {
      CountBeforeSplits(keys[1..], t);
      forall i | 1 <= i < CountBefore(keys, t) ensures keys[i].time < t {
        assert keys[1..][i - 1] == keys[i];
      }
      forall i | CountBefore(keys, t) <= i < |keys| ensures keys[i].time >= t {
        assert keys[1..][i - 1] == keys[i];
      }
    }
  }

  /** Keyframe table after `setValueAtTime(k.time, k.value)`: a key already at that
      time gets the new value; otherwise the new key is inserted in time order. */
  function InsertKey(keys: seq<Key>, k: Key): seq<Key>
  {
    if keys == [] then [k]
    else if keys[0].time == k.time then [keys[0].(value := k.value)] + keys[1..]
    else if k.time < keys[0].time then [k] + keys
    else [keys[0]] + InsertKey(keys[1..], k)
  }

  predicate HasKeyAt(keys: seq<Key>, t: real)
  {
    exists i :: 0 <= i < |keys| && keys[i].time == t
  }

  /** Dropping a first key that lies before `t` does not change whether a key sits at `t`. */
  lemma HasKeyAtTail(keys: seq<Key>, t: real)
    requires keys != [] && keys[0].time < t
    ensures HasKeyAt(keys, t) <==> HasKeyAt(keys[1..], t)
  {
    if HasKeyAt(keys, t) {
      var i :| 0 <= i < |keys| && keys[i].time == t;
      assert keys[1..][i - 1] == keys[i];
    }
    if HasKeyAt(keys[1..], t) {
      var i :| 0 <= i < |keys[1..]| && keys[1..][i].time == t;
      assert keys[i + 1] == keys[1..][i];
    }
  }

  lemma IncreasingTail(keys: seq<Key>)
    requires Increasing(keys) && keys != []
    ensures Increasing(keys[1..])
  {
    var rest := keys[1..];
    forall i, j | 0 <= i < j < |rest| ensures rest[i].time < rest[j].time {
      assert rest[i] == keys[i + 1] && rest[j] == keys[j + 1];
    }
  }

  /** A key already at the new key's time gets the new value in place. */
  lemma {:induction false} InsertKeyReplaces(keys: seq<Key>, k: Key)
    requires Increasing(keys) && HasKeyAt(keys, k.time)
    ensures var j := CountBefore(keys, k.time);
      j < |keys| && keys[j].time == k.time &&
      InsertKey(keys, k) == keys[..j] + [keys[j].(value := k.value)] + keys[j + 1..]
  {
    if keys[0].time < k.time {
      IncreasingTail(keys);
      HasKeyAtTail(keys, k.time);
      InsertKeyReplaces(keys[1..], k);
      var j := CountBefore(keys, k.time);
      assert InsertKey(keys, k) == [keys[0]] + InsertKey(keys[1..], k);
      assert keys[..j] == [keys[0]] + keys[1..][..j - 1];
      assert keys[j + 1..] == keys[1..][j..];
    } else {
      var i :| 0 <= i < |keys| && keys[i].time == k.time;
      assert i == 0 || keys[0].time < keys[i].time;
      assert keys[..0] == [] && keys[1..] == keys[0 + 1..];
    }
  }

  /** With no key at the new key's time, the new key goes between the keys before and after it. */
  lemma {:induction false} InsertKeyInserts(keys: seq<Key>, k: Key)
    requires Increasing(keys) && !HasKeyAt(keys, k.time)
    ensures var j := CountBefore(keys, k.time);
      InsertKey(keys, k) == keys[..j] + [k] + keys[j..]
  {
    if keys != [] && keys[0].time < k.time {
      IncreasingTail(keys);
      HasKeyAtTail(keys, k.time);
      InsertKeyInserts(keys[1..], k);
      var j := CountBefore(keys, k.time);
      assert keys[..j] == [keys[0]] + keys[1..][..j - 1];
      assert keys[j..] == keys[1..][j - 1..];
    } else if keys != [] {
      assert keys[0].time != k.time;
    }
  }

  /** Inserting a key keeps the keyframe times strictly increasing. */
  lemma InsertKeyIncreasing(keys: seq<Key>, k: Key)
    requires Increasing(keys)
    ensures Increasing(InsertKey(keys, k))
  {
    CountBeforeSplits(keys, k.time);
    var j := CountBefore(keys, k.time);
    if HasKeyAt(keys, k.time) {
      InsertKeyReplaces(keys, k);
      SameTimesIncreasing(keys, j, k.value);
    } else {
      InsertKeyInserts(keys, k);
      assert forall i :: j <= i < |keys| ==> keys[i].time != k.time;
      InsertBetweenIncreasing(keys, j, k);
    }
  }

  /** Giving one key a new value keeps the times, so the order holds. */
  lemma SameTimesIncreasing(keys: seq<Key>, j: nat, v: Value)
    requires Increasing(keys) && j < |keys|
    ensures Increasing(keys[..j] + [keys[j].(value := v)] + keys[j + 1..])
  {
    var r := keys[..j] + [keys[j].(value := v)] + keys[j + 1..];
    assert forall a :: 0 <= a < |r| ==> r[a].time == keys[a].time;
  }

  /** A key placed after every earlier time and before every later one keeps the order. */
  lemma InsertBetweenIncreasing(keys: seq<Key>, j: nat, k: Key)
    requires Increasing(keys) && j <= |keys|
    requires forall i :: 0 <= i < j ==> keys[i].time < k.time
    requires forall i :: j <= i < |keys| ==> keys[i].time > k.time
    ensures Increasing(keys[..j] + [k] + keys[j..])
  {
    var r := keys[..j] + [k] + keys[j..];
    assert forall a :: 0 <= a < j ==> r[a] == keys[a];
    assert r[j] == k;
    assert forall a :: j < a < |r| ==> r[a] == keys[a - 1];
  }

  /** The pieces around an inserted element. */
  lemma AroundInsert<T>(a: seq<T>, x: T, b: seq<T>)
    ensures var q := a + [x] + b;
      q[|a|] == x && q[..|a|] == a && q[|a| + 1..] == b
  {
    var q := a + [x] + b;
    assert q[..|a|] == a;
    assert q[|a| + 1..] == b;
  }

  /** In strictly increasing keys each time belongs to one key. */
  lemma TimeNamesOneKey(keys: seq<Key>, a: nat, b: nat)
    requires Increasing(keys) && a < |keys| && b < |keys| && keys[a].time == keys[b].time
    ensures a == b
  {
  }

  /** Inserting a key where there was none and then deleting the key nearest
      to its time gives back the original keys. */
  lemma InsertThenRemoveKey(keys: seq<Key>, k: Key, idx: int)
    requires Increasing(keys) && !HasKeyAt(keys, k.time)
    requires IsNearest(InsertKey(keys, k), k.time, idx)
    ensures var q := InsertKey(keys, k); q[idx - 1].time == k.time && q[..idx - 1] + q[idx..] == keys
  {
    var q := InsertKey(keys, k);
    InsertKeyInserts(keys, k);
    InsertKeyIncreasing(keys, k);
    var j := CountBefore(keys, k.time);
    AroundInsert(keys[..j], k, keys[j..]);
    assert q[j] == k;
    assert Abs(KeyTime(q, idx) - k.time) <= Abs(KeyTime(q, j + 1) - k.time);
    TimeNamesOneKey(q, idx - 1, j);
    assert q[..j] + q[j + 1..] == keys[..j] + keys[j..];
    assert keys[..j] + keys[j..] == keys;
  }

  /** `setValue(v)` on a property without keyframes. */
  function SetValue(p: Prop, v: Value): Prop
  {
    p.(value := v)
  }

  /** `setValueAtTime(t, v)`, always called at the current time: it keys `v` at `t`
      (new keys are linear) and the property then reads `v`. */
  function SetValueAtTime(p: Prop, t: real, v: Value): Prop
  {
    p.(keys := InsertKey(p.keys, Key(t, v, Linear, Linear)), value := v)
  }

  /** `removeKey(idx)`. */
  function RemoveKey(p: Prop, idx: int): Prop
    requires 1 <= idx <= |p.keys|
  {
    p.(keys := p.keys[..idx - 1] + p.keys[idx..])
  }

  /** Deleting a key keeps the remaining times strictly increasing. */
  lemma RemoveKeyIncreasing(p: Prop, idx: int)
    requires Increasing(p.keys) && 1 <= idx <= |p.keys|
    ensures Increasing(RemoveKey(p, idx).keys)
  {
    var r := RemoveKey(p, idx).keys;
    forall i, j | 0 <= i < j < |r| ensures r[i].time < r[j].time {
      var i' := if i < idx - 1 then i else i + 1;
      var j' := if j < idx - 1 then j else j + 1;
      assert r[i] == p.keys[i'] && r[j] == p.keys[j'];
    }
  }

  /** `setInterpolationTypeAtKey(k, HOLD, HOLD)`. */
  function HoldKey(keys: seq<Key>, k: int): seq<Key>
    requires 1 <= k <= |keys|
  {
    keys[k - 1 := keys[k - 1].(inInterp := Hold, outInterp := Hold)]
  }

  /** The script's own write rule: keyed properties get a key at the current
      time, static ones a new static value. Either way the property then reads `v`. */
  function WriteValue(p: Prop, t: real, v: Value): (r: Prop)
    ensures r.value == v
    ensures r.matchName == p.matchName && r.name == p.name && r.valueType == p.valueType && r.canVary == p.canVary
    ensures |p.keys| == 0 ==> r.keys == []
    ensures |p.keys| > 0 ==> exists i :: 0 <= i < |r.keys| && r.keys[i].time == t && r.keys[i].value == v
    ensures forall i :: 0 <= i < |p.keys| && p.keys[i].time != t ==> p.keys[i] in r.keys
  {
    if |p.keys| > 0 then
      InsertKeyKeeps(p.keys, Key(t, v, Linear, Linear));
      SetValueAtTime(p, t, v)
    else SetValue(p, v)
  }

  /** Keying `k` leaves a key at its time carrying its value, and keeps every
      key at another time. */
  lemma {:induction false} InsertKeyKeeps(keys: seq<Key>, k: Key)
    ensures exists i :: 0 <= i < |InsertKey(keys, k)| && InsertKey(keys, k)[i].time == k.time && InsertKey(keys, k)[i].value == k.value
    ensures forall i :: 0 <= i < |keys| && keys[i].time != k.time ==> keys[i] in InsertKey(keys, k)
    decreases |keys|
  {
    var r := InsertKey(keys, k);
    if keys == [] {
      assert r[0] == k;
    } else if keys[0].time == k.time {
      assert r[0].time == k.time && r[0].value == k.value;
      forall i | 0 <= i < |keys| && keys[i].time != k.time ensures keys[i] in r {
        assert r[i] == keys[i];
      }
    } else if k.time < keys[0].time {
      assert r[0] == k;
      forall i | 0 <= i < |keys| && keys[i].time != k.time ensures keys[i] in r {
        assert r[i + 1] == keys[i];
      }
    } else {
      InsertKeyKeeps(keys[1..], k);
      var rest := InsertKey(keys[1..], k);
      assert r == [keys[0]] + rest;
      var j :| 0 <= j < |rest| && rest[j].time == k.time && rest[j].value == k.value;
      assert r[j + 1] == rest[j];
      forall i | 0 <= i < |keys| && keys[i].time != k.time ensures keys[i] in r {
        if i == 0 { assert r[0] == keys[0]; }
        else { assert keys[1..][i - 1] == keys[i]; assert keys[i] in rest; }
      }
    }
  }

  /** Writing a value keeps the property well formed. */
  lemma WriteValueValid(p: Prop, t: real, v: Value)
    requires ValidProp(p)
    ensures ValidProp(WriteValue(p, t, v))
  {
    if |p.keys| > 0 {
      InsertKeyIncreasing(p.keys, Key(t, v, Linear, Linear));
    }
  }

  /** The child answers to `name`, by match name or display name. */
  predicate PropIs(p: Prop, name: string)
  {
    p.matchName == name || p.name == name
  }

  /** The effect answers to `name`, by match name or display name. */
  predicate EffectIs(e: Effect, name: string)
  {
    e.matchName == name || e.name == name
  }

  /** Effect `i` is the first one answering to `name`. */
  predicate FirstEffectIs(fx: seq<Effect>, i: int, name: string)
  {
    0 <= i < |fx| && EffectIs(fx[i], name) && forall j :: 0 <= j < i ==> !EffectIs(fx[j], name)
  }

  /** No effect answers to `name`. */
  predicate NoEffectIs(fx: seq<Effect>, name: string)
  {
    forall i :: 0 <= i < |fx| ==> !EffectIs(fx[i], name)
  }

  /** AE's `group.property(name)`: the first child whose name or match name is `name`. */
  function PropNamed(ps: seq<Prop>, name: string): (r: Option<nat>)
    ensures r.Some? ==> r.value < |ps| && PropIs(ps[r.value], name)
    ensures r.Some? ==> forall j :: 0 <= j < r.value ==> !PropIs(ps[j], name)
    ensures r.None? <==> forall i :: 0 <= i < |ps| ==> !PropIs(ps[i], name)
  {
    FirstWhere(ps, (p: Prop) => PropIs(p, name))
  }

  /** `property(name)` on the effect stack: the first effect answering to `name`. */
  function EffectNamed(fx: seq<Effect>, name: string): (r: Option<nat>)
    ensures r.Some? ==> FirstEffectIs(fx, r.value, name)
    ensures r.None? <==> NoEffectIs(fx, name)
  {
    FirstWhere(fx, (e: Effect) => EffectIs(e, name))
  }
}
