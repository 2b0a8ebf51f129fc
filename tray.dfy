/** The system-tray widget: the hidden tray window that receives dock
    requests, one Icon per docked client window, and the Systray widget that
    owns the icon registry and lays the icons out on the bar.

    X server calls are not performed; the ones the widget issues are recorded,
    in order, in the ghost trace `Qtile.requests`. */
module Tray {
  import opened Results
  import opened Wire
  import opened Geometry
  import opened Strip
  import opened Registry

  const DefaultIconSize: nat := 20
  const DefaultPadding: int := 5
  /** SYSTEM_TRAY_REQUEST_DOCK, the opcode of a dock request (freedesktop
      System Tray Protocol Specification, "Docking a tray icon"). */
  const SystemTrayRequestDock: Card32 := 0
  /** The X11 StructureNotify event-mask bit. */
  const StructureNotifyMask: int := 0x2_0000

  /** The interned atoms the tray uses: _NET_SYSTEM_TRAY_OPCODE, MANAGER and
      _NET_SYSTEM_TRAY_S0. */
  datatype Atoms = Atoms(trayOpcode: Card32, manager: Card32, traySelection: Card32)

  /** The X requests the widget sends, as far as this model records them. */
  datatype XRequest =
    | ChangeSaveSetInsert(wid: int)
    | ReparentWindow(wid: int, parent: int, x: int, y: int)
    | Flush
    | MapWindow(wid: int)
    | SetSelectionOwner(owner: int, selection: int, time: int)
    | SendEvent(destination: int, event: seq<Byte>, mask: int)

  /** The requests that complete a dock, in the order they are issued. */
  function DockRequests(wid: int, parent: int): (r: seq<XRequest>)
  {
    [ChangeSaveSetInsert(wid), ReparentWindow(wid, parent, 0, 0), Flush, MapWindow(wid)]
  }

  /** Position j of a sequence with position i cut out. */
  lemma SpliceAt(s: seq<int>, i: nat, j: nat)
    requires i < |s| && j < |s| - 1
    ensures (s[..i] + s[i + 1..])[j] == s[if j < i then j else j + 1]
  {
  }

  /** The registry invariant on a key order and a key-to-icon map: each key
      once, the order and the map agree, and each icon sits under its own
      window id. */
  ghost predicate ValidRegistry(order: seq<int>, icons: map<int, Icon>)
  {
    && Distinct(order)
    && (forall i :: 0 <= i < |order| ==> order[i] in icons)
    && (forall k :: k in icons ==> k in order && icons[k].wid == k)
  }

  /** A valid registry holds as many keys in its order as in its map, so
      `len(icons)` is the length of the key order. */
  lemma RegistrySize(order: seq<int>, icons: map<int, Icon>)
    requires ValidRegistry(order, icons)
    ensures |order| == |icons|
  {
    DistinctCard(order);
    forall x | x in order
      ensures x in icons
    {
      var i :| 0 <= i < |order| && order[i] == x;
    }
    forall x | x in icons
      ensures x in set y | y in order
    {
    }
    assert icons.Keys == set x | x in order;
  }

  /** `ws` are the current widths of the icons of a registry, in key order. */
  ghost predicate WidthsOf(ws: seq<int>, order: seq<int>, icons: map<int, Icon>)
    reads icons.Values
  {
    && |ws| == |order|
    && forall j :: 0 <= j < |order| ==> order[j] in icons && ws[j] == icons[order[j]].width
  }

  /** `del icons[wid]` for a registered `wid` at position i of the key
      order cuts that position out of the order and keeps the registry
      valid. */
  lemma DeleteKeepsRegistry(order: seq<int>, icons: map<int, Icon>, wid: int, i: nat)
    requires ValidRegistry(order, icons) && wid in icons && i == IndexOf(order, wid)
    ensures order[..i] + order[i + 1..] == Removed(order, wid)
    ensures ValidRegistry(order[..i] + order[i + 1..], icons - {wid})
  {
    RemovedAt(order, wid);
    RemovedDistinct(order, wid);
    RemovedKeys(order, wid);
    var rest, left := order[..i] + order[i + 1..], icons - {wid};
    forall j | 0 <= j < |rest|
      ensures rest[j] in left
    {
      assert rest[j] in order && rest[j] != wid;
    }
  }

  /** After that deletion the icon's width is cut out of the strip's widths,
      and the widget narrows by that width and one padding. */
  lemma WidthsAfterDelete(s: Systray, order: seq<int>, icons: map<int, Icon>, ws: seq<int>,
                          wid: int, i: nat)
    requires WidthsOf(ws, order, icons)
    requires i < |order| && order[i] == wid
    requires s.Valid() && s.icons == icons - {wid} && s.order == order[..i] + order[i + 1..]
    ensures s.Widths() == ws[..i] + ws[i + 1..]
    ensures s.CalculateWidth() == Span(ws, s.padding) - ws[i] - s.padding
  {
    var nws := s.Widths();
    forall j | 0 <= j < |nws|
      ensures nws[j] == (ws[..i] + ws[i + 1..])[j]
    {
      var k := if j < i then j else j + 1;
      SpliceAt(order, i, j);
      SpliceAt(ws, i, j);
      assert s.order[j] == order[k];
    }
    assert nws == ws[..i] + ws[i + 1..];
    SpanRemoveAt(ws, i, s.padding);
  }

  /** `icons[wid] = icon` with an icon for window `wid` keeps the registry
      valid. */
  lemma DockKeepsRegistry(order: seq<int>, icons: map<int, Icon>, wid: int, icon: Icon)
    requires ValidRegistry(order, icons) && icon.wid == wid
    ensures ValidRegistry(Docked(order, wid), icons[wid := icon])
  {
    DockedKeys(order, wid);
  }

  /** After that store, with an icon of the icon size: a new id appends the
      icon size to the strip's widths and widens the widget by it and one
      padding; a registered id has its width reset to the icon size in
      place. */
  lemma WidthsAfterDock(s: Systray, order: seq<int>, icons: map<int, Icon>, ws: seq<int>,
                        wid: int, icon: Icon)
    requires WidthsOf(ws, order, icons) && Distinct(order)
    requires icon.width == s.iconSize
    requires s.Valid() && s.icons == icons[wid := icon] && s.order == Docked(order, wid)
    ensures wid in order ==>
      && s.Widths() == ws[IndexOf(order, wid) := s.iconSize]
      && s.CalculateWidth() == Span(ws, s.padding) - ws[IndexOf(order, wid)] + s.iconSize
    ensures wid !in order ==>
      && s.Widths() == ws + [s.iconSize]
      && s.CalculateWidth() == Span(ws, s.padding) + s.iconSize + s.padding
  {
    if wid in order {
      var i := IndexOf(order, wid);
      assert s.Widths() == ws[i := s.iconSize] by {
        forall j | 0 <= j < |ws| ensures s.Widths()[j] == ws[i := s.iconSize][j] {
          if j == i {
            assert s.order[j] == wid;
          }
        }
      }
      SpanReplaceAt(ws, i, s.iconSize, s.padding);
    } else {
      assert s.Widths() == ws + [s.iconSize];
      SpanAppend(ws, s.iconSize, s.padding);
    }
  }

  /** What the window map dispatches events for a window id to. */
  datatype Handler = IconHandler(icon: Icon) | TrayHandler(tray: TrayWindow) | OtherHandler

  /** The exception `del` raises on a missing key. */
  datatype DispatchError = KeyError

  /** The window a ClientMessage asks to dock, if it is a dock request. */
  function DockTarget(event: ClientMessage, trayOpcode: Card32): (r: Option<Card32>)
    requires WellFormed(event)
  {
    if event.msgType == trayOpcode && event.data[1] == SystemTrayRequestDock
    then Some(event.data[2]) else None
  }

  /** The window manager's state the widget touches: the root window, the
      interned atoms, the dispatch table from window id to handler, and the
      requests sent to the X server. */
  class Qtile {
    const root: Card32
    const atoms: Atoms
    var windowMap: map<int, Handler>
    ghost var requests: seq<XRequest>

    constructor (root: Card32, atoms: Atoms)
      ensures this.root == root && this.atoms == atoms
      ensures windowMap == map[] && requests == []
    {
      this.root := root;
      this.atoms := atoms;
      windowMap := map[];
      requests := [];
    }
  }

  /** One docked client window. */
  class Icon {
    const wid: Card32
    const qtile: Qtile
    const systray: Systray
    var width: int
    var height: int

    /** A new icon starts as a square of the tray's icon size. */
    constructor (wid: Card32, qtile: Qtile, systray: Systray)
      ensures this.wid == wid && this.qtile == qtile && this.systray == systray
      ensures width == systray.iconSize && height == systray.iconSize
    {
      this.wid := wid;
      this.qtile := qtile;
      this.systray := systray;
      width := systray.iconSize;
      height := systray.iconSize;
    }

    /** Re-reads the size hints (passed in: None when min_width or min_height
        is missing) and takes the negotiated size. When this icon is
        registered, its entry in the strip's widths changes to the new width
        and the widget's width changes by the difference. */
    method HandleConfigureNotify(hints: Option<Size>)
      modifies this`width, this`height
      ensures Size(width, height) == Negotiate(systray.iconSize, hints)
      ensures 0 < systray.iconSize ==> 0 < height <= systray.iconSize
      ensures old(systray.Valid()) && wid in systray.icons && systray.icons[wid] == this ==>
        && systray.Valid()
        && systray.Widths() == old(systray.Widths())[IndexOf(systray.order, wid) := width]
        && systray.CalculateWidth() == old(systray.CalculateWidth()) - old(width) + width
    {
      var size := Negotiate(systray.iconSize, hints);
      ghost var before := if systray.Valid() then systray.Widths() else [];
      width := size.width;
      height := size.height;
      if systray.Valid() && wid in systray.icons && systray.icons[wid] == this {
        var i := IndexOf(systray.order, wid);
        ghost var after := systray.Widths();
        assert |after| == |before| == |systray.order|;
        forall j | 0 <= j < |after|
          ensures after[j] == before[i := width][j]
        {
          var icon := systray.icons[systray.order[j]];
          assert after[j] == icon.width;
          if j != i {
            // another key holds another icon, whose width did not change
            assert systray.order[j] != wid;
            assert icon.wid == systray.order[j];
            assert before[j] == old(icon.width);
          }
        }
        assert after == before[i := width];
        SpanReplaceAt(before, i, width, systray.padding);
      }
    }

    /** DestroyNotify and UnmapNotify (one handler): deletes `wid` from the
        window map, then from the registry, then redraws. `del` raises
        KeyError on a missing key, so a missing id leaves what was already
        deleted deleted and skips the rest. On success the remaining icons
        keep their order, the widget narrows by the icon's width and one
        padding, and the result is the redrawn strip. */
    method HandleDestroyNotify(wid: int) returns (r: Result<seq<Rect>, DispatchError>)
      requires systray.Valid()
      modifies qtile`windowMap, systray`order, systray`icons
      ensures systray.Valid()
      ensures r.Failure? <==> wid !in old(qtile.windowMap) || wid !in old(systray.icons)
      ensures qtile.windowMap == old(qtile.windowMap) - {wid}
      ensures r.Failure? ==> systray.order == old(systray.order) && systray.icons == old(systray.icons)
      ensures r.Success? ==>
        && systray.icons == old(systray.icons) - {wid}
        && systray.order == Removed(old(systray.order), wid)
        && systray.Widths() == old(systray.Widths()[..IndexOf(systray.order, wid)]
                                   + systray.Widths()[IndexOf(systray.order, wid) + 1..])
        && systray.CalculateWidth()
           == old(systray.CalculateWidth()) - old(systray.icons[wid].width) - systray.padding
        && r.value == Layout(systray.Widths(), systray.offset, systray.padding,
                             systray.iconSize, systray.barHeight)
      ensures old(systray.Mirrored(qtile)) ==> systray.Mirrored(qtile)
    {
      ghost var ws, reserved := systray.Widths(), systray.CalculateWidth();
      if wid !in qtile.windowMap {
        r := Failure(KeyError);
      } else {
        qtile.windowMap := qtile.windowMap - {wid};
        // the window map is not part of the registry
        assert systray.Widths() == ws && systray.CalculateWidth() == reserved;
        if wid !in systray.icons {
          r := Failure(KeyError);
        } else {
          var placed := systray.DeleteIcon(wid);
          r := Success(placed);
        }
      }
    }
  }

  /** The hidden window that owns the tray selection and receives dock
      requests. */
  class TrayWindow {
    const wid: Card32
    const qtile: Qtile
    const systray: Systray

    constructor (wid: Card32, qtile: Qtile, systray: Systray)
      ensures this.wid == wid && this.qtile == qtile && this.systray == systray
    {
      this.wid := wid;
      this.qtile := qtile;
      this.systray := systray;
    }

    /** A dock request registers a new square icon under the requested id in
        the registry and the window map, then issues the X requests that adopt
        the window. `failAt` is the number of those four requests that
        complete before one raises DrawableError (4 or more: none raises); the
        error is swallowed and the registration stays. Re-docking an id
        replaces its icon in place. Any other message changes nothing. */
    method HandleClientMessage(event: ClientMessage, failAt: nat)
      requires WellFormed(event) && systray.Valid()
      modifies systray`order, systray`icons, qtile`windowMap, qtile`requests
      ensures systray.Valid()
      ensures DockTarget(event, qtile.atoms.trayOpcode).None? ==>
        && systray.order == old(systray.order) && systray.icons == old(systray.icons)
        && qtile.windowMap == old(qtile.windowMap) && qtile.requests == old(qtile.requests)
      ensures DockTarget(event, qtile.atoms.trayOpcode).Some? ==>
        var wid := event.data[2];
        && wid in systray.icons
        && var icon := systray.icons[wid];
        && fresh(icon) && icon.wid == wid && icon.qtile == qtile && icon.systray == systray
        && icon.width == systray.iconSize && icon.height == systray.iconSize
        && systray.icons == old(systray.icons)[wid := icon]
        && systray.order == Docked(old(systray.order), wid)
        && qtile.windowMap == old(qtile.windowMap)[wid := IconHandler(icon)]
        && qtile.requests == old(qtile.requests)
             + DockRequests(wid, systray.barWindow)[..if failAt < 4 then failAt else 4]
        && (wid in old(systray.icons) ==>
              && systray.Widths()
                 == old(systray.Widths())[IndexOf(old(systray.order), wid) := systray.iconSize]
              && systray.CalculateWidth()
                 == old(systray.CalculateWidth() - systray.icons[wid].width) + systray.iconSize)
        && (wid !in old(systray.icons) ==>
              && systray.Widths() == old(systray.Widths()) + [systray.iconSize]
              && systray.CalculateWidth()
                 == old(systray.CalculateWidth()) + systray.iconSize + systray.padding)
      ensures old(systray.Mirrored(qtile)) ==> systray.Mirrored(qtile)
    {
      var atoms := qtile.atoms;
      var opcode := event.msgType;
      var message := event.data[1];
      var wid := event.data[2];
      var parent := systray.barWindow;
      if opcode == atoms.trayOpcode && message == SystemTrayRequestDock {
        ghost var order, icons, ws := systray.order, systray.icons, systray.Widths();
        var icon := new Icon(wid, qtile, systray);
        systray.icons := systray.icons[wid := icon];
        systray.order := Docked(systray.order, wid);
        qtile.windowMap := qtile.windowMap[wid := IconHandler(icon)];
        DockKeepsRegistry(order, icons, wid, icon);
        // ChangeSaveSet, ReparentWindow, flush and map, in this order; the
        // first one that raises DrawableError abandons the rest, and the
        // handler swallows the error.
        var completed := if failAt < 4 then failAt else 4;
        qtile.requests := qtile.requests + DockRequests(wid, parent)[..completed];
        WidthsAfterDock(systray, order, icons, ws, wid, icon);
      }
    }
  }

  /** The widget: its configuration, where the bar put it, and the icon
      registry (a Python dict, kept here as its keys in insertion order plus
      the map from key to icon). */
  class Systray {
    const iconSize: nat
    const padding: int
    /** Horizontal position of the widget on the bar, set by the bar. */
    var offset: int
    var barHeight: int
    var barWindow: Card32
    var traywin: TrayWindow?
    var order: seq<int>
    var icons: map<int, Icon>

    constructor (iconSize: nat, padding: int)
      ensures this.iconSize == iconSize && this.padding == padding
      ensures order == [] && icons == map[] && traywin == null
      ensures Valid()
    {
      this.iconSize := iconSize;
      this.padding := padding;
      offset := 0;
      barHeight := 0;
      barWindow := 0;
      traywin := null;
      order := [];
      icons := map[];
    }

    /** The registry invariant: each key once, the key order and the map
        agree, and each icon sits under its own window id. */
    ghost predicate Valid()
      reads this
    {
      ValidRegistry(order, icons)
    }

    /** Every registered icon is also what the window map dispatches its
        window's events to. */
    ghost predicate Mirrored(qtile: Qtile)
      reads this, qtile
    {
      forall k :: k in icons ==> k in qtile.windowMap && qtile.windowMap[k] == IconHandler(icons[k])
    }

    /** The icons' widths in registry order. */
    function Widths(): (ws: seq<int>)
      requires Valid()
      reads this, icons.Values
    {
      seq(|order|, i requires 0 <= i < |order| && order[i] in icons reads this, icons.Values =>
        icons[order[i]].width)
    }

    /** The width the widget asks of the bar: the sum of the icons' widths
        plus one padding per icon. It is the extent the draw pass covers. */
    function CalculateWidth(): (w: int)
      requires Valid()
      reads this, icons.Values
      ensures w == Span(Widths(), padding)
    {
      var ws := Widths();
      SpanIsSumPlusPadding(ws, padding);
      Sum(ws) + padding * |order|
    }

    /** Takes ownership of the tray selection through a new hidden window
        (its id `trayWid` comes from the X server) and broadcasts the MANAGER
        message to the root window. */
    method Configure(qtile: Qtile, barWindow: Card32, barHeight: int, trayWid: Card32)
      modifies this`traywin, this`barWindow, this`barHeight, qtile`windowMap, qtile`requests
      ensures traywin != null && fresh(traywin)
      ensures traywin.wid == trayWid && traywin.qtile == qtile && traywin.systray == this
      ensures this.barWindow == barWindow && this.barHeight == barHeight
      ensures qtile.windowMap == old(qtile.windowMap)[trayWid := TrayHandler(traywin)]
      ensures qtile.requests == old(qtile.requests) + [
        SetSelectionOwner(trayWid, qtile.atoms.traySelection, CurrentTime),
        SendEvent(qtile.root,
                  Encode(ManagerMessage(qtile.root, qtile.atoms.manager, CurrentTime,
                                        qtile.atoms.traySelection, trayWid)),
                  StructureNotifyMask)]
      ensures old(Mirrored(qtile)) && trayWid !in icons ==> Mirrored(qtile)
    {
      this.barWindow := barWindow;
      this.barHeight := barHeight;
      var atoms := qtile.atoms;
      traywin := new TrayWindow(trayWid, qtile, this);
      qtile.windowMap := qtile.windowMap[trayWid := TrayHandler(traywin)];
      qtile.requests := qtile.requests + [SetSelectionOwner(trayWid, atoms.traySelection, CurrentTime)];
      var event := Encode(ManagerMessage(qtile.root, atoms.manager, CurrentTime,
                                         atoms.traySelection, trayWid));
      qtile.requests := qtile.requests + [SendEvent(qtile.root, event, StructureNotifyMask)];
    }

    /** `del icons[wid]` followed by a redraw: the key leaves the registry,
        the remaining icons keep their order, the widget narrows by the
        icon's width and one padding, and the redrawn strip is returned. */
    method DeleteIcon(wid: int) returns (placed: seq<Rect>)
      requires Valid() && wid in icons
      modifies this`order, this`icons
      ensures Valid()
      ensures icons == old(icons) - {wid}
      ensures order == Removed(old(order), wid)
      ensures Widths() == old(Widths()[..IndexOf(order, wid)] + Widths()[IndexOf(order, wid) + 1..])
      ensures CalculateWidth() == old(CalculateWidth()) - old(icons[wid].width) - padding
      ensures placed == Layout(Widths(), offset, padding, iconSize, barHeight)
    {
      ghost var order0, icons0, ws := order, icons, Widths();
      var i := IndexOf(order, wid);
      icons := icons - {wid};
      order := order[..i] + order[i + 1..];
      DeleteKeepsRegistry(order0, icons0, wid, i);
      var reserved;
      reserved, placed := Draw();
      WidthsAfterDelete(this, order0, icons0, ws, wid, i);
    }

    /** The draw pass: reserves CalculateWidth() at the offset and places the
        icons left to right with a running x offset, which yields exactly the
        reference layout of the icons' widths. */
    method Draw() returns (reserved: int, placed: seq<Rect>)
      requires Valid()
      ensures reserved == CalculateWidth()
      ensures placed == Layout(Widths(), offset, padding, iconSize, barHeight)
    {
      reserved := CalculateWidth();
      // the icons' widths in registry order, i.e. `icons.values()`
      var ws := Widths();
      var y := barHeight / 2 - iconSize / 2;
      var xoffset := padding;
      placed := [];
      var i := 0;
      while i < |ws|
        invariant 0 <= i <= |ws|
        invariant xoffset == padding + Span(ws[..i], padding)
        invariant placed == Layout(ws[..i], offset, padding, iconSize, barHeight)
      {
        assert ws[..i + 1] == ws[..i] + [ws[i]];
        LayoutSnoc(ws[..i], ws[i], offset, padding, iconSize, barHeight);
        SpanAppend(ws[..i], ws[i], padding);
        placed := placed + [Rect(offset + xoffset, y, ws[i], iconSize)];
        xoffset := xoffset + ws[i] + padding;
        i := i + 1;
      }
      assert ws[..i] == ws;
    }
  }

  /** At the default configuration (icon size 20, padding 5) a widget with
      no icons asks the bar for no width, and after one dock request for 25. */
  method DefaultWidths() returns (empty: int, one: int)
    ensures empty == 0 && one == 25
  {
    var qtile := new Qtile(1, Atoms(2, 3, 4));
    var systray := new Systray(DefaultIconSize, DefaultPadding);
    empty := systray.CalculateWidth();
    var tray := new TrayWindow(5, qtile, systray);
    var request := ClientMessage(ClientMessageCode, Format32, 0, 5, 2,
                                 [CurrentTime, SystemTrayRequestDock, 7, 0, 0]);
    assert DockTarget(request, qtile.atoms.trayOpcode) == Some(7);
    tray.HandleClientMessage(request, 4);
    one := systray.CalculateWidth();
  }
}
