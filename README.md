# Order display engine — a Dafny model

This project models the display engine of a small order-notification device
(the `DisplayManager` class of `mainApp.py`). When an order arrives, the
device shows a lightning alert, then a "New Order!" celebration banner for
3 s, then the order's details as a series of two-entry screens. Content
screens scroll horizontally. Each screen stays up for 8 s, the series is shown
twice, and then the display goes idle.

The model has four modules, one per component of the engine:

- `TextFormat` (`text.dfy`): joining with a line break and splitting at line
  breaks, with both round trips. Also the decimal form of an integer, the way
  the item count is printed, with a proof that it can be read back.
- `ScreenBuilder` (`screens.dfy`): the order record, its entry list, and the
  pagination into screens. `GroupEntries` is the buffer-and-flush loop,
  proved equal to the `Paginate` specification; `CreateOrderScreens` builds
  the entry list and hands it to that loop, so it yields `OrderScreens`. Lemmas give the screen
  count and the content of every screen.
- `Geometry` (`geometry.dfy`): the lightning-bolt segment loop and the line
  placement loop of a screen. The random draws and the font's text measure
  are parameters.
- `DisplayStateMachine` (`session.dfy`): the session fields as a value
  `Session`, one display-loop tick as the function `Next`, and a new order as
  `NewOrder`. The class `DisplayManager` holds the same fields and updates them
  in place. Its `Tick(now)` and `SetNewOrder(order, now)` methods are proved
  against `Next` and `NewOrder`. They keep the invariant `Inv`: the screen index
  is in range, the scroll is below its limit, the first two screens do not
  scroll, and the cycle counter stays in bounds.

Time is an integer number of milliseconds passed in by the caller. The source
reads the clock in seconds and compares with `> 3` and `> 8`; the model uses
`> 3000` and `> 8000`. One tick uses a single `now`.

Four behaviours of the code that a reader may not expect:
- A new order does not reset the screen index. The index goes back to 0 when
  the celebration ends (`mainApp.py:125`).
- The end of the celebration does not touch the scroll position
  (`mainApp.py:122-126`). `Inv` shows the scroll is already 0 at that point,
  so the effect is the same.
- The scroll limit uses the character count of the whole screen text,
  including its line breaks, not a pixel width (`mainApp.py:130`).
- The width-based advance test (`mainApp.py:143`) is modelled exactly as
  written. `WidthConditionNeverHolds` proves it can never be true, so screens
  move on only by the timeout.

## Model

| member | source | states |
|---|---|---|
| TextFormat.JoinLines | mainApp.py:252-255 | no ensures; specified by JoinSplitLines and SplitJoinLines (it undoes the split, and the split undoes it on break-free parts) |
| TextFormat.SplitLines | mainApp.py:263 | splitting at line breaks gives at least one line, and no line contains a break |
| TextFormat.JoinSplitLines | mainApp.py:263 | joining the split lines with line breaks gives back the original text |
| TextFormat.SplitJoinLines | mainApp.py:252 | splitting line-free parts after joining them gives back the parts |
| TextFormat.NatToDecimal | mainApp.py:240 | the decimal form of a natural number is non-empty, all digits, has no leading zero, and is one digit exactly when the number is below 10 |
| TextFormat.IntToDecimal | mainApp.py:240 | the decimal form of an integer starts with '-' exactly when the integer is negative, and the rest is digits |
| TextFormat.IntToDecimalRoundTrip | mainApp.py:240 | reading back the decimal form of the item total gives the total |
| ScreenBuilder.TotalItems | mainApp.py:236 | no ensures; specified by TotalItemsAppend and TotalItemsBounds |
| ScreenBuilder.TotalItemsAppend | mainApp.py:236 | the quantity sum of a concatenation is the sum of the two sums |
| ScreenBuilder.TotalItemsBounds | mainApp.py:236 | with no negative quantity, the total is non-negative and at least every single quantity |
| ScreenBuilder.ProductEntries | mainApp.py:242 | one entry per line item; its entries are given by ProductEntriesAt |
| ScreenBuilder.ProductEntriesAt | mainApp.py:242 | the product entry list has one "Product:\n" + name entry for each line item, in input order |
| ScreenBuilder.Entries | mainApp.py:237-243 | there are 4 + L entries; their content is given by EntriesLayout, ExampleOrderEntries |
| ScreenBuilder.EntriesLayout | mainApp.py:237-243 | there are 4 + L entries: the order name, the total with its currency, the sum of all quantities, the customer's first name, then one "Product:\n" + name entry per line item in input order |
| ScreenBuilder.Chunks | mainApp.py:245-256 | no ensures; specified by ChunksFlatten, ChunksCount, ChunkAt, ChunksAppend |
| ScreenBuilder.Paginate | mainApp.py:245-256 | no ensures; specified by PairScreenAt, PairScreens and PaginateFlush, and computed by the GroupEntries loop |
| ScreenBuilder.OrderScreens | mainApp.py:232-257 | no ensures; specified by ScreenCount, ScreenLayout, ExampleOrderScreens, and computed by CreateOrderScreens |
| ScreenBuilder.ChunksFlatten | mainApp.py:245-256 | grouping entries into screens loses, adds and reorders nothing, and every group holds between 1 and n entries |
| ScreenBuilder.ChunksCount | mainApp.py:245-256 | the number of groups of n is the least number that holds all entries, ceil(len / n) |
| ScreenBuilder.ChunkAt | mainApp.py:245-256 | group k is the slice of the entries from k*n to k*n + n, cut at the end |
| ScreenBuilder.ChunksAppend | mainApp.py:249-255 | after a whole number of full groups, appending between 1 and n entries appends exactly one group |
| ScreenBuilder.PairScreenAt | mainApp.py:245-256 | with two per screen, screen k exists only when entry 2k does, and it is entry 2k, then a line break and entry 2k+1 when that exists |
| ScreenBuilder.PairScreens | mainApp.py:245-256 | with two per screen there are ceil(len / 2) screens, and screen k is entry 2k, then a line break and entry 2k+1 when it exists |
| ScreenBuilder.ScreenCount | mainApp.py:232-257 | an order with L line items has ceil((4 + L) / 2) screens |
| ScreenBuilder.ScreenLayout | mainApp.py:232-257 | an order has at least 2 screens, exactly 2 with no items, and screen k pairs entries 2k and 2k+1 |
| ScreenBuilder.PaginateFlush | mainApp.py:251-255 | flushing the buffer after a whole number of screens appends exactly the buffer's joined screen |
| ScreenBuilder.ExampleOrderEntries | mainApp.py:236-243 | order #1001 (42.50 USD, Alice, two widgets) has the entries "Order #1001", "Total: 42.50 USD", "Items: 2", "Customer:\nAlice", "Product:\nWidget" |
| ScreenBuilder.FivePages | mainApp.py:245-256 | five entries make three screens: entries 1 and 2 joined by a line break, entries 3 and 4 likewise, and the fifth alone |
| ScreenBuilder.ExampleOrderScreens | mainApp.py:232-257 | that order shows three screens: name and total, item count and customer, the product |
| ScreenBuilder.GroupEntries | mainApp.py:245-256 | the buffer-and-flush loop over any entry list yields exactly the groups of two joined with a line break, ceil(len / 2) screens |
| ScreenBuilder.CreateOrderScreens | mainApp.py:232-257 | the buffer-and-flush loop builds exactly OrderScreens(order), ceil((4 + L) / 2) screens |
| Geometry.Clamp | mainApp.py:213-214 | the clamped value is within the bounds, equals the input when the input is inside them, and is the nearer bound otherwise |
| Geometry.StepFromDevice | mainApp.py:211-215 | one step from a point on the device gives an on-device segment that does not climb and spans at most a quarter of the width |
| Geometry.DrawsStartOnDevice | mainApp.py:204-205 | the drawn start column and row 0 lie on the device |
| Geometry.Bolt | mainApp.py:207-216 | no ensures; specified by BoltShape and LightningShape, and computed by the LightningSegments loop |
| Geometry.BoltShape | mainApp.py:207-216 | from any on-device point, with steps of at most a quarter width sideways and never upwards, the bolt has one segment per step, starts at the point, is chained, and each segment is its step clamped onto the device |
| Geometry.LightningShape | mainApp.py:201-216 | for every value randint can draw, the bolt has one segment per step, starts at (start_x, 0), is chained and stays on the device |
| Geometry.LightningSegments | mainApp.py:197-216 | exactly as many segments as drawn; the first starts at (start_x, 0); each starts where the previous one ended and ends at its start plus the step, clamped; every endpoint is in [0, width-1] x [0, height-1] |
| Geometry.LineX | mainApp.py:267-274 | a line that fits is centred (on the device, left margin equal to the right margin or one pixel smaller); a wider line is at width - offset |
| Geometry.DrawMultilineCentered | mainApp.py:259-275 | one drawing per line of the screen, in order, line i at y = 14*i and at the column LineX gives; together the drawn lines spell the whole screen text |
| DisplayStateMachine.ScrollLimit | mainApp.py:130-131 | the scroll limit, the screen's character count plus the device width plus 156, is at least 156 |
| DisplayStateMachine.Initial | mainApp.py:87-95 | no ensures; specified by InitialInv and by the DisplayManager constructor |
| DisplayStateMachine.NewOrder | mainApp.py:187-192 | no ensures; specified by NewOrderInv and by DisplayManager.SetNewOrder |
| DisplayStateMachine.AdvanceScreen | mainApp.py:143-152 | no ensures; specified by WithinPass, OnePass, PassesToIdle and CountersOnlyMoveTogether |
| DisplayStateMachine.ScrollAfter | mainApp.py:133-140 | no ensures; specified by WidthConditionNeverHolds and OrderInfoTick |
| DisplayStateMachine.Next | mainApp.py:119-156 | no ensures; specified by NextPreservesInv, CelebrationTick, OrderInfoTick, QuiescentTick, CountersOnlyMoveTogether, and computed by DisplayManager.Tick |
| DisplayStateMachine.InitialInv | mainApp.py:87-95 | the idle start-up session satisfies the invariant |
| DisplayStateMachine.NextPreservesInv | mainApp.py:119-156 | a tick keeps the invariant: index in range and scroll in [0, limit) while screens are shown, no scroll on screens 0 and 1 and outside the screen cycle, cycles in [0, 2] and positive while screens are shown |
| DisplayStateMachine.NewOrderInv | mainApp.py:187-192 | a new order keeps the invariant, celebrates with scroll 0, and has at least two screens |
| DisplayStateMachine.WidthConditionNeverHolds | mainApp.py:137-143 | the scroll after the step is in [0, scroll_limit), so it never reaches scroll_limit + max_width |
| DisplayStateMachine.CelebrationTick | mainApp.py:119-126 | the banner is drawn; while no more than 3 s have passed nothing changes; after that the session shows the first screen with scroll 0, 2 cycles and a fresh start time |
| DisplayStateMachine.OrderInfoTick | mainApp.py:128-152 | the shown screen is drawn (content screens at their scroll offset); after more than 8 s the display advances; otherwise only the scroll of a content screen moves, to (scroll + 10) mod limit |
| DisplayStateMachine.QuiescentTick | mainApp.py:128-156 | an idle tick clears the device and an order-info tick with no screens draws nothing; neither changes the session |
| DisplayStateMachine.CountersOnlyMoveTogether | mainApp.py:122-152 | cycles drop only when the index wraps from the last screen to 0, and by one; they rise only when the celebration ends, to 2; every index change restarts the scroll at 0 |
| DisplayStateMachine.AdvanceTimesAdd | mainApp.py:143-152 | a + b advances are a advances followed by b |
| DisplayStateMachine.WithinPass | mainApp.py:143-147 | advancing within a pass moves the index by the number of advances and keeps state, cycles and screens |
| DisplayStateMachine.OnePass | mainApp.py:143-152 | a full pass from the first screen returns to it with one cycle fewer, idle when none is left |
| DisplayStateMachine.PassesToIdle | mainApp.py:143-152 | from the first screen with c cycles left, idle is reached after exactly c full passes and not one advance sooner |
| DisplayStateMachine.OrderLifecycle | mainApp.py:119-192 | after a new order and more than 3 s, the order's screens are shown from the first, and idle follows after exactly two full passes |
| DisplayStateMachine.Run | mainApp.py:117-158 | no ensures; the loop's ticks one after another, specified by RunAdvances, TicksToIdle, TickedOrderLifecycle |
| DisplayStateMachine.Timeouts | mainApp.py:143-146 | no ensures; the number of ticks whose timeout test holds, each restarting the screen's clock; used by RunAdvances and TicksToIdle |
| DisplayStateMachine.AdvanceTimesPosition | mainApp.py:143-152 | where repeated advances leave the screen cycle (state, index, cycles, screens) does not depend on the scroll, the clock or the times of the advances |
| DisplayStateMachine.RunAdvances | mainApp.py:117-156 | over any run of ticks while screens are shown, the display ends where as many advances as timed-out ticks would leave it; the other ticks only scroll |
| DisplayStateMachine.TicksToIdle | mainApp.py:117-156 | ticking from the first screen with c cycles left, the display shows screens while fewer than c full passes of timed-out ticks have happened, and is idle once exactly c have |
| DisplayStateMachine.TickedOrderLifecycle | mainApp.py:117-192 | after a new order and a tick more than 3 s later, the display is idle exactly when the following ticks have found a screen timed out twice per screen, and shows screens before that |
| DisplayStateMachine.DisplayManager.constructor | mainApp.py:87-96 | a new display is idle with no screens, scroll 0, index 0, no cycles and no order, and satisfies the invariant |
| DisplayStateMachine.DisplayManager.SetNewOrder | mainApp.py:182-192 | the fields become NewOrder of the old ones: the built screens, scroll 0, CELEBRATION, start time now, index and cycles untouched; the order is recorded; the invariant is kept |
| DisplayStateMachine.DisplayManager.Tick | mainApp.py:117-156 | one loop iteration updates the fields to Next of the old ones, returns the frame Next draws, and keeps the invariant |

## Left out

- Flask route, ngrok tunnel and request parsing (`mainApp.py:281-326`): network I/O. The model takes the order record as an argument.
- `LEDManager` (`mainApp.py:26-59`): it only switches a GPIO pin and sleeps.
- Threads, `start`/`stop`, the `while self.running` loop and the sleeps (`mainApp.py:101-117`, `158`, `175-180`): concurrency and timing. One loop iteration is `Tick(now)`.
- Locking between the order handler and the display thread: the source has none. The model treats `SetNewOrder` and `Tick` as atomic steps.
- `show_lightning_animation` (`mainApp.py:163-180`): a timed loop of drawing calls. Only the segment coordinates of one bolt are modelled.
- Drawing calls (`canvas`, `device.clear`, `draw.text`, `draw.line`, `draw.rectangle`): `Tick` returns the frame it would draw, and the placement and bolt methods return coordinates.
- `_show_celebration_screen` (`mainApp.py:221-230`): a fixed banner made of drawing calls. It is the `Banner` frame.
- Font loading and its fallback (`mainApp.py:82-85`), and PIL's `textlength`, which returns floats: a `string -> nat` measure parameter stands in for the font.
- `random.randint` (`mainApp.py:204-211`): the drawn values are parameters, and `LightningDraws` constrains them to randint's ranges.
- Clock reads: `now` is a parameter in milliseconds. The source makes several `time.time()` calls in one iteration; the model uses one value for all of them.
- Number formatting of `total_price`: it is kept as the text it is printed as. A JSON number would go through Python's float formatting, which is not modelled.
- Order payloads with missing fields, or fields of the wrong type: `Order` is a typed record, so the KeyError and TypeError paths of `_create_order_screens` are not modelled.
- The main entry wiring (`mainApp.py:332-352`) and the commented-out audio.
