# Qtile system tray, modelled in Dafny

This project models the core of qtile's system-tray widget
(`libqtile/widget/systray.py`). The widget owns the X11 tray selection and
announces itself with a MANAGER ClientMessage. It accepts dock requests from
tray-icon clients and keeps the docked icons in an insertion-ordered
registry. It negotiates each icon's size from the client's size hints, drops
an icon when its window is destroyed or unmapped, and lays the icons out left
to right on the bar.

Modules:

- `Results` (`results.dfy`): the `Option` and `Result` values used for missing
  hints, failed decodes and a raised `KeyError`.
- `Wire` (`wire.dfy`): the 32-byte ClientMessage in the `BBHII5I` layout.
  Byte order is fixed to little-endian. The module has an encoder, a decoder,
  and the MANAGER message of section 2.8 of the ICCCM ("Manager Selections").
- `Geometry` (`geometry.dfy`): the size negotiation done in
  `Icon.handle_ConfigureNotify`.
- `Strip` (`strip.dfy`): the widget's width (`Span`) and the reference layout
  of the icon rectangles.
- `Registry` (`registry.dfy`): the key order of the icon dictionary under
  store (`Docked`) and `del` (`Removed`).
- `Tray` (`tray.dfy`): the classes `Qtile` (the window map and a ghost trace
  of X requests), `Icon`, `TrayWindow` and `Systray`. Their methods update
  the state in place, as the handlers do.

The Python dict `Systray.icons` is modelled as two fields: `order`, the keys
in insertion order, and `icons`, a map from key to `Icon` object. An `Icon` is
a class because `handle_ConfigureNotify` assigns its `width` and `height` in
place. The same object is shared between the registry and the window map.

X server calls are not performed. These calls are appended, in order, to the
ghost sequence `Qtile.requests`:

- ChangeSaveSet, ReparentWindow, flush and map for a dock.
- SetSelectionOwner and send_event for the MANAGER broadcast.

Several things the X server supplies are parameters instead:

- The size hints (`Option<Size>`; `None` when min_width or min_height is
  missing).
- The id of the hidden window `create_window` returns.
- The point at which a dock's X calls raise `DrawableError`. This is
  `failAt`, the number of the four calls that complete first.

When a dock's X calls fail, the code (lines 77-94) leaves the icon
registered in both maps. A reading in which the failed dock leaves the
registry unchanged is not what the code does, and the model follows the
code.

## Model

| member | source | states |
|---|---|---|
| `Wire.Le16RoundTrip` | libqtile/widget/systray.py:134-139 | decoding the two little-endian bytes of the `H` field gives back the 16-bit value |
| `Wire.FromLe16RoundTrip` | libqtile/widget/systray.py:134-139 | every two bytes are the encoding of exactly one 16-bit value |
| `Wire.Le32RoundTrip` | libqtile/widget/systray.py:134-139 | decoding the four little-endian bytes of an `I` field gives back the 32-bit value |
| `Wire.FromLe32RoundTrip` | libqtile/widget/systray.py:134-139 | every four bytes are the encoding of exactly one 32-bit value |
| `Wire.Encode` | libqtile/widget/systray.py:134-139 | `struct.pack('BBHII5I', ...)` gives exactly 32 bytes, starting with the code and the format byte |
| `Wire.Decode` | libqtile/widget/systray.py:134-139 | decoding succeeds exactly on 32 bytes and then yields five data words |
| `Wire.DecodeEncode` | libqtile/widget/systray.py:134-139 | decoding an encoded event gives back the same event (code, format, sequence, window, type, five words) |
| `Wire.ManagerMessage` | libqtile/widget/systray.py:134-139 | the MANAGER event built from the `pack` arguments is a well-formed ClientMessage, with five data words |
| `Wire.EncodeDecode` | libqtile/widget/systray.py:134-139 | encoding a decoded 32-byte message gives back the same bytes, so the codec is a bijection |
| `Wire.ManagerBytes` | libqtile/widget/systray.py:134-139 | the fields sit at byte offsets 0, 1, 2, 4, 8, 12, 16, 20, 24 and 28, with values 33, 32, 0, root, MANAGER, time, selection, owner, 0 and 0 |
| `Wire.DecodeManager` | libqtile/widget/systray.py:134-139 | recognises only a 32-byte message with code 33 and format 32 |
| `Wire.ManagerRoundTrip` | libqtile/widget/systray.py:134-139 | decoding the MANAGER bytes recovers exactly root, MANAGER atom, time, selection atom and owner window |
| `Wire.DecodeManagerInverse` | libqtile/widget/systray.py:134-139 | whatever the MANAGER decoder accepts is exactly the encoding of the MANAGER message built from the fields it returns, so the decoder is a partial inverse of the encoder |
| `Geometry.Negotiate` | libqtile/widget/systray.py:22-41 | with a positive icon size the negotiated height is always in (0, icon_size]; with icon size 0 the result is 0 × 0 |
| `Geometry.NegotiateFallbacks` | libqtile/widget/systray.py:26-38 | missing hints, or a hint height ≤ 0, give icon_size × icon_size; hints whose height is in (0, icon_size] are kept unchanged |
| `Geometry.NegotiateKeepsAspect` | libqtile/widget/systray.py:33-35 | a hint taller than icon_size gives height icon_size and width ⌊min_width · icon_size / min_height⌋ (stated by its floor bounds) |
| `Geometry.NegotiateIdempotent` | libqtile/widget/systray.py:22-41 | negotiating again from a negotiated size changes nothing |
| `Strip.SpanIsSumPlusPadding` | libqtile/widget/systray.py:116-119 | the extent Σ(width + padding) equals the sum of widths plus padding · count |
| `Strip.SpanConcat` | libqtile/widget/systray.py:116-119 | the extent of two runs of icons is the sum of their extents |
| `Strip.SpanAppend` | libqtile/widget/systray.py:116-119 | one more icon adds its width and one padding |
| `Strip.SpanRemoveAt` | libqtile/widget/systray.py:116-119 | removing the icon at position i subtracts its width and one padding |
| `Strip.SpanReplaceAt` | libqtile/widget/systray.py:116-119 | changing one icon's width changes the extent by the difference |
| `Strip.SpanNonNegative` | libqtile/widget/systray.py:116-119 | with non-negative widths and padding the extent is non-negative |
| `Strip.Layout` | libqtile/widget/systray.py:145-157 | the reference layout has one rectangle per icon |
| `Strip.LayoutSnoc` | libqtile/widget/systray.py:148-157 | one more icon extends the layout by one rectangle, placed one padding after the extent of the icons before it; the earlier rectangles do not move |
| `Strip.LayoutSteps` | libqtile/widget/systray.py:148-157 | the first icon starts at offset + padding; each next one starts one padding after the previous ends; each has its own width, height icon_size, and y = bar.height // 2 - icon_size // 2 |
| `Strip.LayoutDisjoint` | libqtile/widget/systray.py:148-157 | with non-negative widths and padding, any earlier icon ends at least one padding before any later icon starts, so icons do not overlap |
| `Strip.LayoutEndsAtSpan` | libqtile/widget/systray.py:145-157 | the last icon ends exactly at offset + the extent, i.e. offset + calculate_width() |
| `Strip.LayoutWithinSpan` | libqtile/widget/systray.py:147-157 | with non-negative widths and padding, every icon lies inside the region draw reserves at the offset |
| `Registry.IndexOf` | libqtile/widget/systray.py:48 | the position of a present key holds that key and is its first occurrence |
| `Registry.Removed` | libqtile/widget/systray.py:48 | after `del` the deleted key is gone, every remaining key was already there, and the order does not grow |
| `Registry.DockedKeys` | libqtile/widget/systray.py:80-81 | a store adds exactly that key and never a duplicate; a new key goes last, a present key keeps its position, and the other keys do not move |
| `Registry.RemovedKeys` | libqtile/widget/systray.py:48 | after `del` the keys are exactly the old keys other than the deleted one |
| `Registry.RemovedAbsent` | libqtile/widget/systray.py:48 | deleting a key that is not present leaves the order as it is |
| `Registry.RemovedAt` | libqtile/widget/systray.py:48 | deleting a present key cuts out exactly its position; the other keys keep their relative order |
| `Registry.RemovedDistinct` | libqtile/widget/systray.py:48 | deleting keeps the keys distinct |
| `Registry.DockThenRemove` | libqtile/widget/systray.py:45-52 | docking a new id and then deleting it restores the previous order |
| `Registry.DockedAllDistinct` | libqtile/widget/systray.py:80-81 | N dock requests with distinct new ids add exactly those N ids, in request order |
| `Registry.DistinctCard` | libqtile/widget/systray.py:118 | a sequence of distinct keys has as many elements as the set of keys it holds |
| `Tray.RegistrySize` | libqtile/widget/systray.py:116-119 | in a valid registry the key order is exactly as long as the icon dict, so `len(self.icons)` is the number of icons in the order |
| `Tray.DeleteKeepsRegistry` | libqtile/widget/systray.py:48 | `del icons[wid]` of a registered id keeps the registry valid (distinct keys, order and map agree) and equals the filtered order |
| `Tray.WidthsAfterDelete` | libqtile/widget/systray.py:45-52 | after that deletion the deleted icon's width is cut out of the widths, and calculate_width drops by that width plus padding |
| `Tray.DockKeepsRegistry` | libqtile/widget/systray.py:79-81 | storing an icon under its own window id keeps the registry valid |
| `Tray.WidthsAfterDock` | libqtile/widget/systray.py:79-81 | a new id appends icon_size to the widths and widens calculate_width by icon_size + padding; a re-docked id has its width reset to icon_size in place |
| `Tray.Icon.constructor` | libqtile/widget/systray.py:16-20 | a new icon is icon_size × icon_size and belongs to its window id and the widget |
| `Tray.Icon.HandleConfigureNotify` | libqtile/widget/systray.py:22-43 | the icon takes the negotiated size, so 0 < height ≤ icon_size whenever icon_size > 0; a registered icon's entry in the widths changes in place and calculate_width changes by the width difference |
| `Tray.Icon.HandleDestroyNotify` | libqtile/widget/systray.py:45-52 | deletes the id from the window map, then from the registry (through `DeleteIcon`), raising KeyError (and skipping the rest) at the first map without it; on success the other icons keep their order, calculate_width drops by the icon's width plus padding, the result is the redrawn layout, and the registry and the mirroring stay valid |
| `Tray.TrayWindow.constructor` | libqtile/widget/systray.py:59-61 | the tray window belongs to its window id, the qtile instance and the widget |
| `Tray.TrayWindow.HandleClientMessage` | libqtile/widget/systray.py:63-95 | a message is a dock request exactly when its type is _NET_SYSTEM_TRAY_OPCODE and data word 1 is 0. A dock request stores a fresh icon_size × icon_size icon, bound to the same qtile and widget, under data word 2 in both maps before the X calls. It then issues, in this order: ChangeSaveSet insert, ReparentWindow to the bar window at (0, 0), flush, and map. A DrawableError after k of these calls leaves the icon registered, with only those first k requests sent. Re-docking replaces the entry in place with no duplicate. Every other message changes nothing. Validity and mirroring are preserved |
| `Tray.Systray.constructor` | libqtile/widget/systray.py:102-111 | a new widget has an empty registry and no tray window |
| `Tray.Systray.CalculateWidth` | libqtile/widget/systray.py:116-119 | sum of widths + padding · count equals the extent Σ(width + padding) that the draw pass covers |
| `Tray.Systray.Configure` | libqtile/widget/systray.py:121-143 | registers a fresh TrayWindow under the new window id. It then sends exactly SetSelectionOwner(tray, _NET_SYSTEM_TRAY_S0, CurrentTime) and the encoded MANAGER event to the root with the StructureNotify mask |
| `Tray.Systray.DeleteIcon` | libqtile/widget/systray.py:48-49 | `del icons[wid]` then redraw: the registry stays valid, the key leaves both the map and the order, the other icons keep their order, the widget narrows by the icon's width plus padding, and the result is the redrawn layout |
| `Tray.Systray.Draw` | libqtile/widget/systray.py:145-157 | reserves calculate_width() and places the icons with a running x offset. The rectangles produced are exactly the reference layout of the icons' widths, in registry order |
| `Tray.DefaultWidths` | libqtile/widget/systray.py:102-119 | at the defaults (icon_size 20, padding 5) an empty tray asks for width 0, and after one dock it asks for 25 |

## Left out

- `Systray.cleanup` (lines 159-166) releases the selection and hides the tray window at exit. It is only X calls and is not modelled.
- `Systray.button_press` is a no-op and is not modelled.
- `atexit.register`, `base._Widget._configure` and the `bar.CALCULATED` width mode passed to the base widget are framework plumbing. The constructor takes `icon_size` and `padding` as parameters. The `add_defaults` values 20 and 5 are `DefaultIconSize` and `DefaultPadding`, used by `DefaultWidths`.
- X calls are not performed: `ChangeSaveSet`, `ReparentWindow`, `flush`, `map`, `SetSelectionOwner` and `send_event` only appear in the ghost request trace. `create_window` is a parameter. `window.set_attribute(backpixmap=...)` in `handle_ConfigureNotify` is not recorded.
- `updateHints` reading from the server is not modelled. Its outcome is the `hints` parameter.
- `drawer.clear`, `drawer.draw` and `icon.place` are pixel output. `Draw` returns the reserved width and the rectangles instead.
- Exceptions other than `DrawableError` in the dock path and `KeyError` in the destroy path are not modelled. The `False` return value of the handlers is also left out.
- `Tray.TrayWindow.HandleClientMessage`: which X call raises `DrawableError` is an input (`failAt`). The asynchronous error reporting of the X connection is not modelled.
- `Geometry.Negotiate`: `icon_size` is a natural number. A negative configured icon size, which would make Python's `//` divide by a non-positive number, is not modelled.
- `Wire.Encode`: the fields are 8-, 16- and 32-bit unsigned values by type. The `struct.error` that `struct.pack` raises for out-of-range values is not modelled. Native byte order and alignment are fixed to little-endian with no padding.
- Dispatch of X events to handlers by the event loop is not modelled. The window map is kept and checked only as state.
