/**
 * Width adjustment of the aggregate (system status) menu. The action-button
 * row at the bottom of that menu fits six buttons at the menu's original
 * width; every further button widens the menu by one button width. In mode
 * "auto" the adjustment runs once and then again whenever a button is added
 * to or removed from the row; in mode "fixed" the menu gets a width chosen by
 * the user, at least the original one; in mode "off" it gets its original
 * width back.
 *
 * Widths are whole pixels. Signal connection is not modelled beyond the two
 * handle variables: the handler ids the host would return are parameters,
 * and the host's actor-added and actor-removed signals are the event methods
 * `OnActorAdded` and `OnActorRemoved`.
 */
module CssAdjust {
  import opened Wrappers

  /** Buttons the row holds at the original menu width. */
  const FittingButtons := 6

  /** Buttons beyond the six that fit: `max(0, children - 6)`. */
  function ExtraButtons(children: int): nat
  {
    if children > FittingButtons then children - FittingButtons else 0
  }

  /** The width the menu needs for `children` action buttons: the base width
      while all buttons fit, never less than it when buttons have a width. */
  function MenuWidth(base: int, btn: int, children: int): (r: int)
    ensures children <= FittingButtons ==> r == base
    ensures btn >= 0 ==> r >= base
  {
    base + btn * ExtraButtons(children)
  }

  /** The counting loop of `checkAggregatemenuwidth`. */
  method CountWidth(base: int, btn: int, children: int) returns (calcWidth: int)
    ensures calcWidth == MenuWidth(base, btn, children)
    ensures children <= FittingButtons ==> calcWidth == base
  {
    calcWidth := base;
    var i := 0;
    while i < children - FittingButtons
      invariant 0 <= i <= ExtraButtons(children)
      invariant calcWidth == base + i * btn
    {
      i := i + 1;
      calcWidth := calcWidth + btn;
    }
  }

  /** Adding a button beyond the sixth widens the menu by one button width;
      up to six buttons it stays at the base width. */
  lemma MenuWidthStep(base: int, btn: int, children: int)
    ensures children >= 6 ==> MenuWidth(base, btn, children + 1) == MenuWidth(base, btn, children) + btn
    ensures children < 6 ==> MenuWidth(base, btn, children + 1) == base
  {
  }

  /** The aggregate menu as the adjuster sees it, with the module state of the
      helper: the two signal handles. */
  class AggregateMenu {
    /** The menu actor's current width. */
    var width: int
    /** The menu width read when the helper is loaded. */
    const baseWidth: int
    /** The width of one action button, measured when the helper is loaded. */
    const btnWidth: int
    /** Number of children of the action-button row. */
    var childCount: nat
    /** Handler id of the actor-added connection, if connected. */
    var addHandle: Option<nat>
    /** Handler id of the actor-removed connection, if connected. */
    var remHandle: Option<nat>

    /** The width the current row needs. */
    function Target(): int
      reads this
    {
      MenuWidth(baseWidth, btnWidth, childCount)
    }

    /** The helper's `!menuChangedAdd && !menuChangedRem` is the negation. */
    predicate Connected()
      reads this
    {
      addHandle.Some? || remHandle.Some?
    }

    /** The two handles are set and cleared together, a set handle is a
        GObject handler id (never 0, so truthy), and while connected the menu
        has the width its row needs. */
    ghost predicate Valid()
      reads this
    {
      && (addHandle.Some? <==> remHandle.Some?)
      && (addHandle.Some? ==> addHandle.value > 0)
      && (remHandle.Some? ==> remHandle.value > 0)
      && (addHandle.Some? ==> width == Target())
    }

    /** Loading the helper: the menu's width and a button's width are
        captured; nothing is connected. */
    constructor (loadWidth: int, buttonWidth: int, children: nat)
      ensures Valid()
      ensures width == loadWidth && baseWidth == loadWidth && btnWidth == buttonWidth
      ensures childCount == children && addHandle == None && remHandle == None
    {
      width := loadWidth;
      baseWidth := loadWidth;
      btnWidth := buttonWidth;
      childCount := children;
      addHandle := None;
      remHandle := None;
    }

    /** `checkAggregatemenuwidth`: the width becomes the one the row needs,
        and is written only when it differs from it. */
    method CheckAggregateMenuWidth() returns (wrote: bool)
      modifies this`width
      ensures width == Target()
      ensures wrote <==> old(width) != Target()
      ensures !wrote ==> width == old(width)
    {
      var calcWidth := CountWidth(baseWidth, btnWidth, childCount);
      wrote := width != calcWidth;
      if wrote {
        width := calcWidth;
      }
    }

    /** `disconnect_all`: both handles end cleared; on a disconnected menu it
        changes nothing. */
    method DisconnectAll()
      modifies this`addHandle, this`remHandle
      ensures addHandle == None && remHandle == None
      ensures old(!Connected()) ==> unchanged(this)
    {
      if addHandle.Some? {
        addHandle := None;
      }
      if remHandle.Some? {
        remHandle := None;
      }
    }

    /** `handle_aggregate_menu`. `addId` and `remId` are the handler ids the
        host returns when mode "auto" connects the two signals (GObject
        handler ids are never 0, so a set handle is always truthy). */
    method HandleAggregateMenu(mode: string, requested: int, addId: nat, remId: nat)
      requires addId > 0 && remId > 0
      modifies this`width, this`addHandle, this`remHandle
      ensures old(Valid()) ==> Valid()
      ensures mode == "auto" && old(Connected()) ==> unchanged(this)
      ensures mode == "auto" && !old(Connected()) ==>
                && addHandle == Some(addId) && remHandle == Some(remId)
                && width == Target()
      ensures mode == "fixed" && requested < baseWidth ==> unchanged(this)
      ensures mode == "fixed" && requested >= baseWidth ==>
                && addHandle == None && remHandle == None
                && width == requested
      ensures mode == "off" ==>
                && addHandle == None && remHandle == None
                && width == baseWidth
      ensures mode != "auto" && mode != "fixed" && mode != "off" ==> unchanged(this)
    {
      if mode == "auto" && addHandle.None? && remHandle.None? {
        // initial menu adjustment, then monitor the action-button row
        var _ := CheckAggregateMenuWidth();
        addHandle := Some(addId);
        remHandle := Some(remId);
      } else if mode == "fixed" && requested >= baseWidth {
        DisconnectAll();
        width := requested;
      } else if mode == "off" {
        DisconnectAll();
        width := baseWidth;
      }
    }

    /** A button was added to the row; the actor-added handler re-runs the
        check while its handle is set. */
    method OnActorAdded()
      modifies this`childCount, this`width
      ensures childCount == old(childCount) + 1
      ensures addHandle.Some? ==> width == Target()
      ensures old(Valid()) ==> Valid()
    {
      childCount := childCount + 1;
      if addHandle.Some? {
        var _ := CheckAggregateMenuWidth();
      }
    }

    /** A button was removed from the row (the host signals removal only of
        an existing child); the actor-removed handler re-runs the check while
        its handle is set. */
    method OnActorRemoved()
      requires childCount > 0
      modifies this`childCount, this`width
      ensures childCount == old(childCount) - 1
      ensures remHandle.Some? ==> width == Target()
      ensures old(Valid()) ==> Valid()
    {
      childCount := childCount - 1;
      if remHandle.Some? {
        var _ := CheckAggregateMenuWidth();
      }
    }
  }

  /** Running the check twice in a row: the second run writes nothing. */
  method CheckTwice(menu: AggregateMenu) returns (first: bool, second: bool)
    modifies menu`width
    ensures menu.width == menu.Target()
    ensures !second
  {
    first := menu.CheckAggregateMenuWidth();
    second := menu.CheckAggregateMenuWidth();
  }

  /** From the disconnected state, mode "auto" and any sequence of row changes
      keep the menu at the width its row needs. */
  method AutoFollowsRow(menu: AggregateMenu, addId: nat, remId: nat, changes: seq<bool>)
    requires addId > 0 && remId > 0
    requires menu.Valid() && !menu.Connected()
    modifies menu
    ensures menu.Connected() && menu.width == menu.Target()
  {
    menu.HandleAggregateMenu("auto", 0, addId, remId);
    for i := 0 to |changes|
      invariant menu.Valid() && menu.addHandle == Some(addId) && menu.remHandle == Some(remId)
    {
      if changes[i] {
        menu.OnActorAdded();
      } else if menu.childCount > 0 {
        menu.OnActorRemoved();
      }
    }
  }
}
