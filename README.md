# Layer-style panel of cx_AnimationTools, modelled in Dafny

cx_AnimationTools is an After Effects extension. The part modelled here is its
layer-style panel, which has five pieces:

- The **host script** (`aeft.ts`) runs inside After Effects. It reads the
  selected layer's style stack, effects and keyframes. From them it builds one
  snapshot: which style is selected (with auto-correction), a nav entry per style
  button, the property rows of the selected style, fill opacity, the
  colour-selection slots, and a fingerprint hash of the layer. It also runs the
  panel's edits inside undo groups: value writes, keyframe actions, adding and
  removing styles, renaming, solo, the FX toggle, frame stepping and the
  colour-slot switches.
- The **shared catalogs** (`layer-style-types.ts`): the ten style buttons, the
  localized add-style menu names, the blend-mode table and the property
  definitions of each style.
- The **polling hook** (`useLayerStyleState.ts`) polls the host. It polls every
  200 ms while the fingerprint keeps changing, and every 1000 ms once the layer
  has been quiet for 3 s.
- The **property row** (`PropertyRow.tsx`): clamping, drag-scrubbing, stepping,
  the blend-mode selector, the colour swatch and the keyframe buttons.
- The **style nav grid** (`StyleNavGrid.tsx`): the button look and the
  right-click add/remove.

The host application is abstracted as plain datatypes (`HostModel`): a
composition, a layer, its style stack, effects and properties with keyframe
tables. The host primitives the script calls become functions on those values:

- `property(name)`
- `setValue`
- `setValueAtTime`
- `removeKey`
- `nearestKeyIndex`
- `setInterpolationTypeAtKey`

The host script's operations are value-level functions. The lookup, snapshot,
keyframe and edit modules each prove what those functions mean. The class
`AeftActions.Host` holds the mutable session (composition, selected layer, undo
log, issued native commands), and its methods are proved equal to those
functions.

The loops of the source are methods proved against the functions. These loops
are:

- auto-correction;
- building the nav vector;
- building the property rows;
- collecting the colour slots;
- hold-all;
- the FX toggle;
- the add-style menu search.

The hook and the property row are classes (`PollLoop.Poller`,
`PropertyRow.RowControl`) whose methods update their fields the way the
React refs and state do.

Module layout:

| file | module | models |
|---|---|---|
| common.dfy | Common | search, substring and small numeric helpers |
| layer_style_types.dfy | LayerStyleTypes | `src/shared/layer-style-types.ts` |
| host_model.dfy | HostModel | the After Effects objects the script touches |
| lookups.dfy | AeftLookups | the lookup helpers of `aeft.ts` |
| snapshot.dfy | AeftSnapshot | `getLayerStyleState` |
| keyframe_ops.dfy | KeyframeOps | the shared body of the two keyframe operations |
| edits.dfy | AeftEdits | the guards and pure parts of the editing functions |
| actions.dfy | AeftActions | the editing functions, undo groups and the `Host` session |
| poll_loop.dfy | PollLoop | `useLayerStyleState` |
| property_row.dfy | PropertyRow | `PropertyRow.tsx` |
| style_nav_grid.dfy | StyleNavGrid | `StyleNavGrid.tsx` |

## Model

| member | source | states |
|---|---|---|
| Common.FirstWhere | src/jsx/aeft/aeft.ts:200-205 | The linear searches of the script: the index found satisfies the test, no earlier index does, and `None` comes back exactly when no element does |
| LayerStyleTypes.StyleButtonsShape | src/shared/layer-style-types.ts:78-89 | There are ten buttons with pairwise distinct ids. The whole-stack entry is last, has no legacy command, and matches the style group itself. |
| LayerStyleTypes.LegacyCommandAt | src/shared/layer-style-types.ts:79-87 | Each of the nine individual styles carries a nonzero legacy command id |
| LayerStyleTypes.NonMasterIdsAreButtons | src/shared/layer-style-types.ts:78-89 | A catalog id belongs to the non-master set exactly when it is not `masterStyle` |
| LayerStyleTypes.NonMasterIdButton | src/shared/layer-style-types.ts:78-87 | Every non-master id is the id of one of the first nine buttons |
| LayerStyleTypes.MenuCommandNamesCoverNonMaster | src/shared/layer-style-types.ts:91-101 | The menu-name table lists exactly the nine non-master styles |
| LayerStyleTypes.MenuCommandNamesNonEmpty | src/shared/layer-style-types.ts:91-101 | Each listed style has at least one localized menu name to try |
| LayerStyleTypes.PropDefsCoverNonMaster | src/shared/layer-style-types.ts:133-212 | Every non-master style has a definition list, and the whole-stack entry has none |
| LayerStyleTypes.EveryPropDefHasCandidate | src/shared/layer-style-types.ts:133-212 | Every property definition offers at least one candidate key suffix |
| LayerStyleTypes.BlendModesIncreasing | src/shared/layer-style-types.ts:103-129 | Blend codes strictly increase along the table, so each code has exactly one position |
| LayerStyleTypes.BlendModeNames | src/shared/layer-style-types.ts:131 | The option names have one entry per blend mode, name i being mode i's name |
| LayerStyleTypes.ParseAction | src/jsx/aeft/aeft.ts:518-544 | A recognised action string is exactly the name of the action it selects |
| LayerStyleTypes.ActionNamesRoundTrip | src/shared/layer-style-types.ts:25 | Each of the five keyframe actions is recognised from its own name |
| HostModel.NearestKeyIndex | src/jsx/aeft/aeft.ts:231 | With keys present, returns a 1-based key whose time is at least as close to t as every other key's |
| HostModel.InsertKeyReplaces | src/jsx/aeft/aeft.ts:464 | `setValueAtTime` at a time that already has a key changes that key's value in place and keeps every other key |
| HostModel.InsertKeyInserts | src/jsx/aeft/aeft.ts:464 | With no key at that time, the new key goes between the keys before and after it, and the rest are unchanged |
| HostModel.InsertKeyIncreasing | src/jsx/aeft/aeft.ts:464 | Keying a value keeps keyframe times strictly increasing |
| HostModel.InsertThenRemoveKey | src/jsx/aeft/aeft.ts:519-523 | Adding a key where there was none and deleting the key nearest its time gives back the original table |
| HostModel.RemoveKeyIncreasing | src/jsx/aeft/aeft.ts:523 | Deleting a key keeps the remaining times strictly increasing |
| HostModel.WriteValue | src/jsx/aeft/aeft.ts:464-465 | After the script's write rule the property reads the new value, and its names, type and animatability are kept. A static property stays static. A keyed property gets a key at the current time carrying the value, and every key at another time is kept. |
| HostModel.WriteValueValid | src/jsx/aeft/aeft.ts:464-465 | The write rule keeps a property well formed |
| HostModel.InsertKeyKeeps | src/jsx/aeft/aeft.ts:464 | `setValueAtTime` leaves a key at its time carrying the new value, and keeps every key at another time |
| HostModel.PropNamed | src/jsx/aeft/aeft.ts:211 | `property(name)` returns the first child whose name or match name is `name`, and `None` iff there is none |
| HostModel.EffectNamed | src/jsx/aeft/aeft.ts:396 | `property(name)` on the effect stack returns the first effect whose name or match name is `name`, and `None` iff there is none |
| AeftLookups.FindStyleDef | src/jsx/aeft/aeft.ts:200-205 | Finds a catalog entry exactly when one has the id, and the entry found has that id |
| AeftLookups.FindStyleDefAt | src/jsx/aeft/aeft.ts:200-205 | Each catalog id finds its own entry |
| AeftLookups.FindMasterDef | src/jsx/aeft/aeft.ts:200-205 | `masterStyle` finds the last catalog entry |
| AeftLookups.GetStyleGroupProp | src/jsx/aeft/aeft.ts:190-198 | The whole stack for the master entry. Otherwise: the first child whose match name is the entry's current or legacy match name, and `None` exactly when no child has either. |
| AeftLookups.ExactNameScanMatches | src/jsx/aeft/aeft.ts:210-220 | A child that the exact-name lookups return also passes the case-insensitive substring test |
| AeftLookups.FindByKeyMeaning | src/jsx/aeft/aeft.ts:208-223 | One suffix finds the first child answering to `"ADBE " + sfx`. Failing that, it finds the first child answering to `sfx`, and failing both, the first child passing the case-insensitive substring test. A child is found exactly when some child passes that test, and the child found always passes it. |
| AeftLookups.FindPropInGroupMeaning | src/jsx/aeft/aeft.ts:207-226 | Nothing is found exactly when no suffix occurs in any child's names. Otherwise the result is what the first suffix that finds anything finds on its own: it matches that suffix, and every earlier suffix matched nothing. |
| AeftLookups.GetKeyframeInfo | src/jsx/aeft/aeft.ts:228-230 | A property that cannot vary or has no keys reports no key, no previous key and no next key |
| AeftLookups.KeyInfoOnKey | src/jsx/aeft/aeft.ts:231-234 | "On a key" holds exactly when some key lies within 0.005 of the time, whichever key the host reports as nearest |
| AeftLookups.KeyInfoOffKey | src/jsx/aeft/aeft.ts:237-243 | Off a key, "previous" or "next" is reported exactly when a key strictly before or after the time exists |
| AeftLookups.KeyInfoOnKeyNeighbours | src/jsx/aeft/aeft.ts:234-236 | On a key, "previous" or "next" is reported exactly when a key before or after that key exists |
| AeftLookups.EnabledBits | src/jsx/aeft/aeft.ts:252-254 | One character per style child: '1' iff the child is enabled, '0' iff not |
| AeftLookups.HashBitAt | src/jsx/aeft/aeft.ts:247-259 | The fingerprint carries child i's enabled flag at a fixed offset |
| AeftLookups.LayerHashSeesEnable | src/jsx/aeft/aeft.ts:247-259 | Switching one style on or off changes the fingerprint |
| AeftLookups.LayerHashSeesEffectCount | src/jsx/aeft/aeft.ts:256-258 | Adding or removing an effect changes the fingerprint |
| AeftLookups.LayerHashSeesStyleCount | src/jsx/aeft/aeft.ts:250-255 | Adding or removing a style changes the fingerprint |
| AeftLookups.DecimalStringInjective | src/jsx/aeft/aeft.ts:249-258 | Distinct counts print as distinct decimal strings in the fingerprint |
| AeftSnapshot.Round1Close | src/jsx/aeft/aeft.ts:343 | Rounding to one decimal moves a number by at most 0.05 and leaves at most one decimal |
| AeftSnapshot.PropValue | src/jsx/aeft/aeft.ts:365-375 | A colour converts exactly when the value has at least three components, and then gives its first three. A boolean kind gives the value's truthiness. A blend mode gives the raw code. A number gives the number rounded to one decimal, a boolean gives 1 or 0, and an array gives none. |
| AeftSnapshot.RowOfMeaning | src/jsx/aeft/aeft.ts:359-387 | A definition yields a row exactly when its property is found and its value converts. The row then holds the converted value, the property's variability and key count, and its keyframe flags at the current time. |
| AeftSnapshot.FirstEligible | src/jsx/aeft/aeft.ts:301-310 | The loop finds the first catalog entry that is not the master entry and whose style is present and enabled, and `None` iff there is none |
| AeftSnapshot.AutoCorrect | src/jsx/aeft/aeft.ts:297-311 | The auto-correction step gives exactly the specified selection |
| AeftSnapshot.SelectStyleMeaning | src/jsx/aeft/aeft.ts:297-311 | The request is kept when there is no style stack or the request is fine. Otherwise the first eligible style is chosen, and its group is enabled. With nothing eligible, the request is kept. |
| AeftSnapshot.SelectStyleStable | src/jsx/aeft/aeft.ts:297-311 | Correction settles in one step: asking again with the reported style gives the same answer |
| AeftSnapshot.BuildNav | src/jsx/aeft/aeft.ts:314-326 | The nav loop builds exactly the nav vector |
| AeftSnapshot.NavStatesMeaning | src/jsx/aeft/aeft.ts:314-326 | One entry per button in catalog order, each with that button's id. Only an existing style is enabled. The master entry exists and is enabled whenever a stack exists. A non-master entry is enabled iff its style is present and on. |
| AeftSnapshot.ResolveRow | src/jsx/aeft/aeft.ts:359-388 | One pass of the row loop yields that definition's row, or nothing when it does not resolve |
| AeftSnapshot.BuildProps | src/jsx/aeft/aeft.ts:355-390 | The row loop builds exactly the rows of the definitions that resolve, in order |
| AeftSnapshot.PropStatesOrder | src/jsx/aeft/aeft.ts:359-363 | Rows never outnumber definitions. When every definition resolves, row i belongs to definition i. |
| AeftSnapshot.RowOfShaped | src/jsx/aeft/aeft.ts:365-387 | A row carries its definition's caption and kind, and has the shape that kind promises |
| AeftSnapshot.PropStatesKinds | src/jsx/aeft/aeft.ts:355-390 | Every row is well shaped and carries the caption and kind of one of the definitions |
| AeftSnapshot.SkippedDefinitionShiftsRows | src/jsx/aeft/aeft.ts:362-363 | A definition that does not resolve moves the next definition's row into its position |
| AeftSnapshot.IndexMismatch | src/jsx/aeft/aeft.ts:453-456 | For a drop shadow holding only its opacity, row 0 is opacity, while definition 0, the one the host indexes by the row number, is the blend mode |
| AeftSnapshot.OpacityOnlyRows | src/jsx/aeft/aeft.ts:359-363 | For definitions that start with blend mode and then opacity, a property list holding only the opacity shows opacity as its first row |
| AeftSnapshot.MasterHasNoProps | src/jsx/aeft/aeft.ts:355-358 | The whole-stack entry never has property rows |
| AeftSnapshot.PColorEffect | src/jsx/aeft/aeft.ts:394-397 | The first effect answering to `P_ColorSelection`. When there is none, the first answering to `ColorSelection`. `None` exactly when the layer has no effects or neither name is present. |
| AeftSnapshot.BuildPColors | src/jsx/aeft/aeft.ts:398-420 | The slot loop collects exactly the specified colour slots |
| AeftSnapshot.PColorSlotsCount | src/jsx/aeft/aeft.ts:400 | At most eight slots are reported |
| AeftSnapshot.PColorSlotsEntries | src/jsx/aeft/aeft.ts:401-416 | Each slot comes from a colour parameter and has the switch index just before it. It is disabled exactly when that parameter is a one-dimensional switch reading 0 or false. |
| AeftSnapshot.PColorSlotsIncreasing | src/jsx/aeft/aeft.ts:400-419 | Slots follow parameter order |
| AeftSnapshot.PColorSlotsComplete | src/jsx/aeft/aeft.ts:400-419 | When fewer than eight slots are reported, every colour parameter is among them |
| AeftSnapshot.GetLayerStyleState | src/jsx/aeft/aeft.ts:269-439 | The assembled host function returns exactly the specified snapshot |
| AeftSnapshot.NoLayerSnapshot | src/jsx/aeft/aeft.ts:272-290 | With no layer selected, the snapshot is empty and echoes the requested style |
| AeftSnapshot.SnapshotStable | src/jsx/aeft/aeft.ts:269-439 | Polling again with the reported style, on an unchanged host, returns the same snapshot |
| KeyframeOps.HoldAllKeys | src/jsx/aeft/aeft.ts:537-543 | The hold-all loop sets every key to hold on both sides, keeping its time and value |
| KeyframeOps.AllHoldIncreasing | src/jsx/aeft/aeft.ts:537-543 | Holding every key keeps the keys in time order |
| KeyframeOps.OperateOn | src/jsx/aeft/aeft.ts:516-546 | The shared keyframe body, with its loop, has exactly the specified effect, and an unknown action does nothing |
| KeyframeOps.EffectKinds | src/jsx/aeft/aeft.ts:518-544 | "prev" and "next" change only the time. The other actions change only the property. |
| KeyframeOps.PrevMovesBackward | src/jsx/aeft/aeft.ts:525-530 | A "prev" that moves lands on an existing key strictly before the time, whichever key is nearest |
| KeyframeOps.NextMovesForward | src/jsx/aeft/aeft.ts:531-536 | A "next" that moves lands on an existing key strictly after the time |
| KeyframeOps.StepNeedsKey | src/jsx/aeft/aeft.ts:525-536 | With no key before the time, "prev" stays put. With no key after it, "next" stays put. |
| KeyframeOps.RemoveOnlyNear | src/jsx/aeft/aeft.ts:520-524 | "remove" deletes a key exactly when one lies within 0.005 of the time, and then only the nearest. Otherwise it changes nothing. |
| KeyframeOps.AddKeysAtTime | src/jsx/aeft/aeft.ts:518-519 | "add" leaves a key at the time carrying the current value, and the keys stay in order |
| KeyframeOps.AddThenRemove | src/jsx/aeft/aeft.ts:518-524 | Adding a key where there was none and then removing at the same time gives back the property exactly |
| KeyframeOps.TwoTolerances | src/jsx/aeft/aeft.ts:233 | Take keys at 0 and 1 with the playhead at 1.003. The panel shows the playhead on the key at 1, with a previous key. Yet "prev" goes to 1, the key it is already on. |
| AeftEdits.WithPropFrame | src/jsx/aeft/aeft.ts:458-465 | Replacing one property changes that property and no other |
| AeftEdits.WithPropValid | src/jsx/aeft/aeft.ts:458-465 | A well-formed replacement keeps the layer well formed |
| AeftEdits.ResolveStylePropMeaning | src/jsx/aeft/aeft.ts:445-459 | A resolved row lies in the enabled group of the style the catalog entry names, and its property answers to the definition's keys. Conversely, when the style's group is a child that is enabled, the index is within the definitions and the property is found, the row resolves to that child and property. |
| AeftEdits.FindPropInGroupByNames | src/jsx/aeft/aeft.ts:207-226 | Property lookup depends only on the children's names |
| AeftEdits.GroupSameShape | src/jsx/aeft/aeft.ts:190-198 | A style's group is found at the same place in stacks of the same shape |
| AeftEdits.ResolveSameShape | src/jsx/aeft/aeft.ts:445-459 | Rows resolve alike in layers whose style stacks have the same shape |
| AeftEdits.ResolveAfterWrite | src/jsx/aeft/aeft.ts:445-465 | After a write, every row still resolves to the same property |
| AeftEdits.StripTrailingNumberMeaning | src/jsx/aeft/aeft.ts:688 | `/\s+\d+$/` removal takes off the leftmost suffix that is whitespace then digits. A name without one is unchanged. |
| AeftEdits.SuffixedName | src/jsx/aeft/aeft.ts:686-689 | The new name ends with the suffix |
| AeftEdits.ToggledEffectsFailing | src/jsx/aeft/aeft.ts:714-721 | Effects whose write throws keep their state. With no failing write, the result is the toggled effect list. |
| AeftEdits.ToggleEffects | src/jsx/aeft/aeft.ts:714-721 | The toggle loop, with a `try` around each write, gives exactly the toggled list with the failing effects left as they were |
| AeftEdits.ToggledEffectsKeep | src/jsx/aeft/aeft.ts:717 | Effects named as colour keys keep their state, and every effect keeps its name |
| AeftEdits.ToggledEffectsMeaning | src/jsx/aeft/aeft.ts:714-721 | Every other effect ends in one common state, the opposite of the first such effect's old state |
| AeftEdits.ToggleTwiceRestores | src/jsx/aeft/aeft.ts:708-723 | When those effects share one state, toggling twice restores every effect |
| AeftEdits.FallbackCommand | src/jsx/aeft/aeft.ts:624-627 | The fallback, when there is one, is a nonzero command id |
| AeftEdits.ChooseCommand | src/jsx/aeft/aeft.ts:612-627 | A chosen command is never 0 |
| AeftEdits.ChooseCommandLoop | src/jsx/aeft/aeft.ts:612-627 | The menu loop chooses exactly the specified command: the first known menu name, else the legacy id |
| AeftEdits.ChooseCommandMaster | src/jsx/aeft/aeft.ts:612-627 | Adding the whole-stack entry runs no command |
| AeftEdits.ChooseCommandNonMaster | src/jsx/aeft/aeft.ts:612-627 | Adding any other catalog style always runs a command, whatever menu names the host knows |
| AeftEdits.FallbackDefined | src/jsx/aeft/aeft.ts:624-627 | Every non-master style has a nonzero legacy command to fall back to |
| AeftEdits.RemoveTargetMeaning | src/jsx/aeft/aeft.ts:636-643 | The remove guard passes exactly for a known style whose group is present and enabled |
| AeftEdits.RemoveTargetWholeStack | src/jsx/aeft/aeft.ts:636-654 | For the whole-stack entry the guard passes whenever the stack is enabled, and the whole stack is cleared |
| AeftEdits.ToggledSwitchMeaning | src/jsx/aeft/aeft.ts:820 | The switch ends at 0 or 1, the opposite of a 0/1 reading, and two toggles restore a 0/1 switch |
| AeftEdits.WithParamValid | src/jsx/aeft/aeft.ts:821-822 | Replacing an effect parameter by a well-formed one keeps the layer well formed |
| AeftActions.DepthAppend | src/jsx/aeft/aeft.ts:462-467 | The open-group count of two histories in sequence is the sum of their counts |
| AeftActions.BracketDepth | src/jsx/aeft/aeft.ts:462-467 | A complete undo group keeps a closed history closed. One whose end was skipped leaves exactly one group open. |
| AeftActions.ValueEditMeaning | src/jsx/aeft/aeft.ts:444-467 | An unresolved row changes nothing. A resolved one makes its property read the value and leaves every other property untouched, and the row still resolves to it. |
| AeftActions.ValueEditValid | src/jsx/aeft/aeft.ts:462-467 | A value edit keeps the layer well formed |
| AeftActions.FillEditMeaning | src/jsx/aeft/aeft.ts:473-491 | Fill opacity then reads the value. Style children, effects, name and solo are untouched. The layer stays well formed, and without fill opacity nothing changes. |
| AeftActions.KeyframeTarget | src/jsx/aeft/aeft.ts:497-511 | A keyframe target is a resolved row whose property can vary over time. Conversely, every resolved row whose property can vary is the target. |
| AeftActions.KeyframeEffectValid | src/jsx/aeft/aeft.ts:516-546 | Every keyframe action keeps the property well formed |
| AeftActions.KeyframeEditMeaning | src/jsx/aeft/aeft.ts:496-547 | A failed guard or an unknown action changes nothing. "prev" and "next" leave the layer alone, and the other actions leave the time alone. |
| AeftActions.KeyframeEditValid | src/jsx/aeft/aeft.ts:496-547 | Keyframe edits keep the layer well formed |
| AeftActions.FillKeyframeEditMeaning | src/jsx/aeft/aeft.ts:552-597 | The same for fill opacity, guarded only by its existence and animatability |
| AeftActions.RunKeyframeEdit | src/jsx/aeft/aeft.ts:513-546 | The keyframe operation as run gives exactly the specified edit |
| AeftActions.RunFillKeyframeEdit | src/jsx/aeft/aeft.ts:565-594 | The fill-opacity keyframe operation as run gives exactly the specified edit |
| AeftActions.EffectParam | src/jsx/aeft/aeft.ts:813-819 | A found switch is parameter `enableIdx` (1-based) of the first effect answering to the name. Conversely, whenever that effect exists and has that many parameters, the switch is found there. |
| AeftActions.ToggleFlipsSlot | src/jsx/aeft/aeft.ts:820-822 | Toggling a 0/1 switch flips the disabled flag the panel shows for its slot |
| AeftActions.AutoEnableShowsSlot | src/jsx/aeft/aeft.ts:840-846 | After the auto-enable write, the panel shows the slot as on |
| AeftActions.PColorEditsMeaning | src/jsx/aeft/aeft.ts:811-846 | Both colour-slot edits keep the layer well formed and change nothing when the switch is missing. The toggle writes the toggled switch value into that one parameter and leaves every other parameter and the rest of the layer unchanged. |
| AeftActions.PColorAutoEnableMeaning | src/jsx/aeft/aeft.ts:830-846 | The auto-enable writes 1 into the switch exactly when the effect, the switch and the colour slot resolve and the switch reads 0 or false. Every other parameter and the rest of the layer stay as they were. Otherwise the layer is unchanged. |
| AeftActions.SteppedTimeMeaning | src/jsx/aeft/aeft.ts:728-733 | The new time lies in [0, duration]. A step inside the comp is exact, and one frame forward then back returns to the start. |
| AeftActions.SetPropertyValueOn | src/jsx/aeft/aeft.ts:444-468 | The layer is the value edit, or unchanged when the host throws. An undo group is recorded exactly when the row resolves. |
| AeftActions.OperateKeyframeOn | src/jsx/aeft/aeft.ts:496-547 | The keyframe edit, with an undo group exactly when the guards pass |
| AeftActions.OperateFillKeyframeOn | src/jsx/aeft/aeft.ts:552-597 | The fill-opacity keyframe edit. Its undo group is left open when the host throws inside it. |
| AeftActions.AddStyleOn | src/jsx/aeft/aeft.ts:602-630 | Issues exactly the chosen command, if any, inside one undo group |
| AeftActions.RemoveStyleOn | src/jsx/aeft/aeft.ts:635-655 | Clears the style only when the remove guard passes, inside an undo group |
| AeftActions.Host.constructor | src/jsx/aeft/aeft.ts:176-180 | A session on the given comp and layer, with empty undo log and command list |
| AeftActions.Host.GetLayerStyleState | src/jsx/aeft/aeft.ts:269-290 | The empty state with no layer, otherwise the snapshot |
| AeftActions.Host.SetPropertyValue | src/jsx/aeft/aeft.ts:444-468 | The new layer and undo log are those of the value edit; nothing else changes |
| AeftActions.Host.SetFillOpacity | src/jsx/aeft/aeft.ts:473-491 | The new layer and undo log are those of the fill edit |
| AeftActions.Host.OperateKeyframe | src/jsx/aeft/aeft.ts:496-547 | The new layer, time and undo log are those of the keyframe edit |
| AeftActions.Host.OperateFillOpacityKeyframe | src/jsx/aeft/aeft.ts:552-597 | The same for fill opacity |
| AeftActions.Host.AddStyle | src/jsx/aeft/aeft.ts:602-630 | With a layer, appends the chosen command and one undo group; otherwise nothing |
| AeftActions.Host.RemoveStyle | src/jsx/aeft/aeft.ts:635-655 | Records a clear of the guarded target in one undo group; otherwise nothing |
| AeftActions.Host.ApplyNameSuffix | src/jsx/aeft/aeft.ts:682-692 | The layer is renamed to the stripped name plus the suffix, in one undo group. A failing write leaves the name unchanged and still closes the group. |
| AeftActions.Host.ToggleSolo | src/jsx/aeft/aeft.ts:697-703 | The solo switch flips, in one undo group. A failing write leaves it unchanged and still closes the group. |
| AeftActions.Host.ToggleFxEnabled | src/jsx/aeft/aeft.ts:708-723 | With effects present, they become the toggled list in one undo group, except that effects whose write throws keep their state. Otherwise nothing changes. |
| AeftActions.Host.NavigateFrame | src/jsx/aeft/aeft.ts:728-733 | The time becomes the stepped time, within [0, duration]; nothing else changes |
| AeftActions.Host.TogglePColor | src/jsx/aeft/aeft.ts:811-825 | The layer becomes the toggled one, in one undo group when the switch exists |
| AeftActions.Host.OpenPColorPicker | src/jsx/aeft/aeft.ts:830-846 | A slot reading off is switched on first, in one undo group; otherwise nothing changes |
| PollLoop.NextDelay | src/js/main/components/layer-style/hooks/useLayerStyleState.ts:46-49 | The delay is 200 or 1000 ms, and 1000 exactly after more than 3000 ms of quiet |
| PollLoop.NextDelayMonotone | src/js/main/components/layer-style/hooks/useLayerStyleState.ts:46-49 | The delay never shrinks as the quiet period grows |
| PollLoop.FailedPollChangesNothing | src/js/main/components/layer-style/hooks/useLayerStyleState.ts:20-36 | A falsy answer or a host error leaves the hook's values untouched |
| PollLoop.PollsTrackLatest | src/js/main/components/layer-style/hooks/useLayerStyleState.ts:19-37 | After any run of answers, the hook holds the latest snapshot's hash, style and state. Without any snapshot, nothing changed. |
| PollLoop.QuietPollsKeepChange | src/js/main/components/layer-style/hooks/useLayerStyleState.ts:24-27 | Answers that repeat the last hash never restart the quiet period |
| PollLoop.GoesIdleWhenQuiet | src/js/main/components/layer-style/hooks/useLayerStyleState.ts:24-49 | When the layer is unchanged, the first tick more than 3000 ms after the last change picks 1000 ms |
| PollLoop.LastChangeWithin | src/js/main/components/layer-style/hooks/useLayerStyleState.ts:24-27 | The last-change time stays inside any window holding it and every answer's arrival |
| PollLoop.RefreshKeepsActive | src/js/main/components/layer-style/hooks/useLayerStyleState.ts:39-42 | After a forced refresh, every tick within 3000 ms picks 200 ms, whatever answers arrive |
| PollLoop.DelayLagsOnePoll | src/js/main/components/layer-style/hooks/useLayerStyleState.ts:46-50 | The delay is chosen before the tick's own answer arrives. After a quiet spell a change is only seen one tick later. |
| PollLoop.RepeatPollSettles | src/js/main/components/layer-style/hooks/useLayerStyleState.ts:29-32 | Polling an unchanged host twice: the second answer changes nothing |
| PollLoop.Poller.constructor | src/js/main/components/layer-style/hooks/useLayerStyleState.ts:10-17 | Starts on `innerShadow` with an empty hash, the quiet period starting now, no state and no timer |
| PollLoop.Poller.Tick | src/js/main/components/layer-style/hooks/useLayerStyleState.ts:46-51 | Polls the current style and schedules the next tick after the specified delay |
| PollLoop.Poller.Receive | src/js/main/components/layer-style/hooks/useLayerStyleState.ts:19-37 | Updates the hook's values exactly as the answer-handling function says |
| PollLoop.Poller.ForceRefresh | src/js/main/components/layer-style/hooks/useLayerStyleState.ts:39-42 | Restarts the quiet period and polls the current style |
| PollLoop.Poller.SelectStyle | src/js/main/components/layer-style/hooks/useLayerStyleState.ts:11-17 | Changes only the current style |
| PollLoop.Poller.Teardown | src/js/main/components/layer-style/hooks/useLayerStyleState.ts:53-55 | Cancels the pending timer and changes nothing else |
| PropertyRow.Rem360 | src/js/main/components/layer-style/PropertyRow.tsx:26 | JavaScript's `% 360`: the remainder has the sign of x, lies strictly between -360 and 360, and differs from x by a whole multiple of 360 |
| PropertyRow.WrapAngle | src/js/main/components/layer-style/PropertyRow.tsx:25-29 | A wrapped angle lies in [0, 360), and angles already in range are unchanged |
| PropertyRow.CaptionTests | src/js/main/components/layer-style/PropertyRow.tsx:23-32 | The captions with their own clamp rule are told apart by the caption tests |
| PropertyRow.ClampRanges | src/js/main/components/layer-style/PropertyRow.tsx:23-33 | Opacity captions are clamped to [0, 100], angle to [0, 360), size-like captions to at least 0 and depth to [0, 1000]. Values in range and other captions pass unchanged. |
| PropertyRow.ClampIdempotent | src/js/main/components/layer-style/PropertyRow.tsx:23-33 | Clamping twice equals clamping once |
| PropertyRow.ScrubRanges | src/js/main/components/layer-style/PropertyRow.tsx:83-89 | Scrubbed numbers stay in each rule's range, except that an angle can reach 360 |
| PropertyRow.AngleScrubReaches360 | src/js/main/components/layer-style/PropertyRow.tsx:86-89 | An angle of 359.6 scrubbed by zero pixels sends 360 |
| PropertyRow.OutgoingRoundTrip | src/js/main/components/layer-style/PropertyRow.tsx:91 | A boolean row sends back exactly the value whose number it was given |
| PropertyRow.ScalarRows | src/js/main/components/layer-style/PropertyRow.tsx:78-81 | Rows with a number control carry a number or a boolean |
| PropertyRow.BooleanSteps | src/js/main/components/layer-style/PropertyRow.tsx:122-134 | On a boolean row "up" sends true, and "down" sends the opposite of the current value |
| PropertyRow.NumberStepsInverse | src/js/main/components/layer-style/PropertyRow.tsx:122-134 | On a number row "down" undoes "up", by 5 for the angle and by 1 otherwise |
| PropertyRow.StepsIgnoreClamp | src/js/main/components/layer-style/PropertyRow.tsx:122-127 | The arrows do not clamp: opacity 100 steps up to 101 |
| PropertyRow.BlendIndexOf | src/js/main/components/layer-style/PropertyRow.tsx:148-152 | The selector always shows a valid position |
| PropertyRow.BlendIndexRoundTrip | src/js/main/components/layer-style/PropertyRow.tsx:69-75 | Choosing a position and reading the selector back gives the same position |
| PropertyRow.BlendCodeRoundTrip | src/js/main/components/layer-style/PropertyRow.tsx:148-152 | A code in the table shows at its own position. Any other value shows as the first entry. |
| PropertyRow.HexDigit | src/js/main/components/layer-style/PropertyRow.tsx:16 | A digit below 16 becomes a lower-case hexadecimal character |
| PropertyRow.HexString | src/js/main/components/layer-style/PropertyRow.tsx:16 | `toString(16)` gives at least one digit: one below 16, two for 16..255 |
| PropertyRow.ToHexByte | src/js/main/components/layer-style/PropertyRow.tsx:14-17 | A channel whose rounded byte is 0..255 gives two lower-case hex digits that spell that byte |
| PropertyRow.UnitChannelIsByte | src/js/main/components/layer-style/PropertyRow.tsx:15 | A channel in [0, 1] rounds to a byte |
| PropertyRow.RgbToHexShape | src/js/main/components/layer-style/PropertyRow.tsx:13-19 | For unit channels the swatch is `#` and six lower-case hex digits, each pair spelling one channel's byte |
| PropertyRow.RowControl.constructor | src/js/main/components/layer-style/PropertyRow.tsx:42-47 | A row not scrubbing, showing no local text and having sent nothing |
| PropertyRow.RowControl.ScrubDown | src/js/main/components/layer-style/PropertyRow.tsx:78-107 | Remembers the pointer and the starting number, and starts dragging |
| PropertyRow.RowControl.ScrubMove | src/js/main/components/layer-style/PropertyRow.tsx:83-93 | While dragging, shows and sends the scrubbed number without a refresh. Otherwise it does nothing. |
| PropertyRow.RowControl.ScrubUp | src/js/main/components/layer-style/PropertyRow.tsx:95-101 | Ends a drag: drops the local text and asks for one refresh |
| PropertyRow.RowControl.Commit | src/js/main/components/layer-style/PropertyRow.tsx:109-120 | A parsed number is sent with a refresh, and NaN sends nothing. The local text is dropped either way. |
| PropertyRow.RowControl.StepUpPressed | src/js/main/components/layer-style/PropertyRow.tsx:122-127 | Sends the stepped-up value with a refresh |
| PropertyRow.RowControl.StepDownPressed | src/js/main/components/layer-style/PropertyRow.tsx:129-134 | Sends the stepped-down value with a refresh |
| PropertyRow.RowControl.BlendChosen | src/js/main/components/layer-style/PropertyRow.tsx:69-75 | Sends the chosen position's blend code with a refresh |
| PropertyRow.RowControl.KeyframePressed | src/js/main/components/layer-style/PropertyRow.tsx:197-246 | Sends the action's name exactly when the property can vary over time |
| StyleNavGrid.NavFor | src/js/main/components/layer-style/StyleNavGrid.tsx:42-44 | The entry found is the one for the requested style |
| StyleNavGrid.ButtonsMeaning | src/js/main/components/layer-style/StyleNavGrid.tsx:41-66 | One button per catalog entry, in catalog order. "selected" exactly for the current style, "exists" for another present and enabled style, and the slash exactly when the style is not present and enabled. |
| StyleNavGrid.ContextMenuMeaning | src/js/main/components/layer-style/StyleNavGrid.tsx:26-37 | The whole-stack button does nothing. Others remove a present, enabled style and add any other. |
| StyleNavGrid.NavForSnapshot | src/js/main/components/layer-style/StyleNavGrid.tsx:42-44 | The button for catalog entry i finds the nav entry the host reported for it |
| StyleNavGrid.PanelAgreesWithHost | src/js/main/components/layer-style/StyleNavGrid.tsx:29-34 | A right-click asks for removal exactly when the host's remove guard would pass. Otherwise it asks for an addition that always finds a command, and the whole-stack button sends nothing. |

## Left out

- Interpolation between keyframes: a keyed property "reads" the value last written to it. Values between keys are not computed.
- HostModel.NearestKeyIndex: the host does not document how it breaks a tie between two equally distant keys. The model takes the earlier key, and the keyframe lemmas hold for any nearest key the host reports.
- Native command execution and selection are not modelled. This covers `revealKeyframes`, `expandStyleProperty`, `openNativeColorPicker` and the picker half of `openPColorPicker` (aeft.ts:738-806, 847-856). Those operations only select properties and run native command ids. `AeftActions.Host.RemoveStyle` records the clear-style command without modelling what it does to the layer.
- AeftActions.Host.AddStyle: records the command it runs, but not the style it adds, which is done inside the application.
- `renameLayer` and `applyBaseName` (aeft.ts:660-677) are not part of this model. They are plain name assignments inside an undo group, of the same shape as `AeftActions.Host.ApplyNameSuffix`.
- The transport between panel and host (`evalTS`, `src/jsx/index.ts`) is not part of this model. In the hook, answers to earlier polls are assumed to arrive in the order they are handled.
- Timers and `Date.now` are parameters: a timer firing is a call to `Tick`, and an answer arriving is a call to `Receive`.
- Floating point: numbers are reals. `Math.round` is floor(x + 1/2), and JavaScript `%` truncates toward zero.
- AeftLookups.GetLayerHash: number formatting is `DecimalString` for the counts and index. The composition id is a natural number.
- `toLowerCase` folds ASCII letters only.
- AeftSnapshot.PropValue: a property value whose shape does not fit its definition's kind yields no row. For example, a colour definition may resolve to a number, or a number definition to an array. The host still pushes a row in that case, holding `undefined` components, NaN or a coerced number. The model therefore drops that row and shifts every later row up one position, as `AeftSnapshot.SkippedDefinitionShiftsRows` describes. Only a property whose value read throws is skipped by the host itself.
- NaN and `undefined` coercions are not modelled, apart from `parseFloat` failing, which `RowControl.Commit` takes as an `Option<real>`.
- `String(n)` for the scrubbed number is modelled for whole numbers only (`IntString`), the only numbers the scrub produces.
- The host script carries its own copy of the catalogs (aeft.ts:38-170). The model declares the catalogs once, in `LayerStyleTypes`.
- `BASE_NAMES` and `SUFFIXES` (layer-style-types.ts:214-215) are not modelled. They only feed the header's menus.
- The other UI files are not part of this model: `LayerStylePanel.tsx`, `HeaderRow.tsx`, `PColorRow.tsx`, `PropertyPanel.tsx` and `main`. The highlight captions and class-name rendering are also left out.
- Host failure is modelled only at the write step. Most mutators take a `hostThrows` parameter. `AeftActions.Host.ToggleFxEnabled` takes the set of effect positions whose write throws, because each effect's write is caught on its own. The other try/catch blocks that swallow errors inside lookups, such as `getStyleGroup`'s, are read as "not found".
- AeftLookups.GetLayerHash: `StyleStack.children` holds only the style groups. The host's "ADBE Layer Styles" group also holds the Blend Options group, and `getLayerHash` (aeft.ts:250-255) counts it in `"_S" + numProperties` and writes its enabled bit. So the model's fingerprint has a count one lower and one bit fewer than the host's. The fingerprint lemmas, which compare two fingerprints of the model, are unaffected.
- AeftActions.EffectParam: an out-of-range switch index is a failure that changes nothing.
- AeftEdits.ResolveStyleProp: a negative `propIndex` is a guard failure. The script would fail on an undefined definition before changing anything.
- The one-render lag between the hook's `setCurrentStyleId` and its `styleIdRef` is not modelled. `SelectStyle` updates both at once.
- Document listeners stacking up after repeated mouse-downs without a mouse-up are not modelled. `ScrubDown` only starts a drag.
- React state updates after unmount are not modelled.
- The colour row's swatch click, which opens the native picker, is not modelled.
- The panel sends a row's position as `propIndex`, but the host indexes definitions by it. The model states the consequence only as `AeftSnapshot.IndexMismatch` and does not model `PropertyPanel.tsx`.
