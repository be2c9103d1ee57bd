/** `StyleNavGrid`: the row of style buttons. Each catalog style gets a
    button whose look follows the snapshot's nav entry for it; a right-click
    asks the host to remove a present, enabled style and to add any other,
    and does nothing on the whole-stack button. */
module StyleNavGrid {
  import opened Common
  import opened LayerStyleTypes
  import opened HostModel
  import opened AeftLookups
  import opened AeftSnapshot
  import opened AeftEdits

  /** The button's class beside `style-nav-btn`. */
  datatype ButtonLook = Selected | Exists | Absent

  /** One rendered button: its style, caption, look, whether the slash is
      drawn, and the nav entry a right-click acts on. */
  datatype NavButton = NavButton(id: string, caption: string, look: ButtonLook, slash: bool, nav: StyleNavState)

  /** The host call a right-click makes. */
  datatype NavCommand = AddStyleCmd(id: string) | RemoveStyleCmd(id: string)

  /** `styleNav.find(n => n.id === id)`, with a missing entry read as neither
      existing nor enabled. */
  function NavFor(styleNav: seq<StyleNavState>, id: string): (n: StyleNavState)
    ensures n.id == id
  {
    match FirstWhere(styleNav, (e: StyleNavState) => e.id == id)
    case Some(k) => styleNav[k]
    case None => StyleNavState(id, false, false)
  }

  /** One button, for catalog entry `sb`. */
  function ButtonFor(styleNav: seq<StyleNavState>, currentStyleId: string, sb: StyleButtonDef): NavButton
  {
    var nav := NavFor(styleNav, sb.id);
    var look := if currentStyleId == sb.id then Selected
                else if nav.isExisting && nav.isEnabled then Exists
                else Absent;
    NavButton(sb.id, sb.caption, look, !nav.isExisting || !nav.isEnabled, nav)
  }

  /** `STYLE_BUTTONS.map(...)`: one button per catalog entry. */
  function Buttons(styleNav: seq<StyleNavState>, currentStyleId: string): seq<NavButton>
  {
    seq(|StyleButtons|, i requires 0 <= i < |StyleButtons| => ButtonFor(styleNav, currentStyleId, StyleButtons[i]))
  }

  /** `handleContextMenu`. */
  function ContextMenu(nav: StyleNavState): (c: Option<NavCommand>)
  {
    if nav.id == MasterStyleId then None
    else if nav.isExisting && nav.isEnabled then Some(RemoveStyleCmd(nav.id))
    else Some(AddStyleCmd(nav.id))
  }

  /** One button per catalog entry in catalog order; "selected" exactly for
      the current style, "exists" for another style that exists and is
      enabled, "absent" otherwise; the slash exactly when the style is not
      both existing and enabled, selected or not; and a style with no nav
      entry counts as neither. */
  lemma ButtonsMeaning(styleNav: seq<StyleNavState>, currentStyleId: string)
    ensures |Buttons(styleNav, currentStyleId)| == |StyleButtons|
    ensures forall i :: 0 <= i < |StyleButtons| ==>
      var b := Buttons(styleNav, currentStyleId)[i];
      var present := exists k :: 0 <= k < |styleNav| && styleNav[k].id == StyleButtons[i].id &&
                       styleNav[k].isExisting && styleNav[k].isEnabled &&
                       forall j :: 0 <= j < k ==> styleNav[j].id != StyleButtons[i].id;
      b.id == StyleButtons[i].id && b.caption == StyleButtons[i].caption &&
      (b.look == Selected <==> currentStyleId == b.id) &&
      (b.look == Exists <==> currentStyleId != b.id && present) &&
      (b.slash <==> !present)
  {
    forall i | 0 <= i < |StyleButtons|
      ensures var b := Buttons(styleNav, currentStyleId)[i];
        var present := exists k :: 0 <= k < |styleNav| && styleNav[k].id == StyleButtons[i].id &&
                         styleNav[k].isExisting && styleNav[k].isEnabled &&
                         forall j :: 0 <= j < k ==> styleNav[j].id != StyleButtons[i].id;
        b.id == StyleButtons[i].id && b.caption == StyleButtons[i].caption &&
        (b.look == Selected <==> currentStyleId == b.id) &&
        (b.look == Exists <==> currentStyleId != b.id && present) &&
        (b.slash <==> !present)
    {
      var id := StyleButtons[i].id;
      var f := FirstWhere(styleNav, (e: StyleNavState) => e.id == id);
      if f.Some? {
        var k := f.value;
        if !(styleNav[k].isExisting && styleNav[k].isEnabled) {
          forall k' | 0 <= k' < |styleNav| && styleNav[k'].id == id &&
                      forall j :: 0 <= j < k' ==> styleNav[j].id != id
            ensures k' == k
          {
            assert styleNav[k].id == id && styleNav[k'].id == id;
          }
        }
      }
    }
  }

  /** A right-click on the whole-stack button does nothing; on any other it
      removes the style exactly when its entry exists and is enabled, and
      adds it otherwise. */
  lemma ContextMenuMeaning(nav: StyleNavState)
    ensures nav.id == MasterStyleId ==> ContextMenu(nav).None?
    ensures nav.id != MasterStyleId ==>
      ContextMenu(nav) == Some(if nav.isExisting && nav.isEnabled then RemoveStyleCmd(nav.id) else AddStyleCmd(nav.id))
  {
  }

  /** The nav entry the snapshot reports for catalog entry `i` is the one the
      button finds. */
  lemma NavForSnapshot(styles: Option<StyleStack>, i: nat)
    requires i < |StyleButtons|
    ensures NavFor(NavStates(styles), StyleButtons[i].id) == NavStates(styles)[i]
  {
    var nav := NavStates(styles);
    StyleButtonsShape();
    NavStatesMeaning(styles);
    FirstWhereIs(nav, (e: StyleNavState) => e.id == StyleButtons[i].id, i);
  }

  /** With the snapshot of layer `l`, right-clicking a non-master button asks
      for removal exactly when the host's own guard in `removeStyle` would
      clear that style, and otherwise asks for an addition that always
      finds a command to run; the whole-stack button, which the host would
      clear completely, never sends anything. */
  lemma PanelAgreesWithHost(l: Layer, currentStyleId: string, i: nat, menuIds: map<string, int>)
    requires i < |StyleButtons|
    ensures var b := Buttons(NavStates(l.styles), currentStyleId)[i];
      var id := StyleButtons[i].id;
      match ContextMenu(b.nav)
      case None => id == MasterStyleId
      case Some(RemoveStyleCmd(x)) => x == id && RemoveTarget(l, id).Some?
      case Some(AddStyleCmd(x)) => x == id && RemoveTarget(l, id).None? && ChooseCommand(id, menuIds).Some?
  {
    var id := StyleButtons[i].id;
    NavForSnapshot(l.styles, i);
    NavStatesMeaning(l.styles);
    FindStyleDefAt(i);
    RemoveTargetMeaning(l, id);
    if id != MasterStyleId {
      NonMasterIdsAreButtons(i);
      ChooseCommandNonMaster(id, menuIds);
    }
  }
}
