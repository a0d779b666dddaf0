# paisl, squid and audio cores in Dafny

This project models the computational core of the un1tz3r0.github.io
sketches and proves properties of it:

- **paisl** (`paisl/js/index.js`), an Apollonian circle-packing renderer.
  - `Circle` is a circle value with an orientation sign, parent/child links
    and a touching relation. It has the orientation copies `inverse`, `inner`,
    `outer`, `shrinktopoint` and `grow`, and `addtouching`, `overlaps` and the
    radial `subdivide`, which builds a centre circle and a ring of `num`
    circles and drives two callbacks.
  - The gap-filling recursion `newgap` / `newrecurse` runs on the renderer's
    queues.
  - `WorkQueue` is an idle-callback task queue and `AnimationQueue` a
    frame-callback task queue.
  - `PrioQueue` maps priorities to lists.
  - The hex colour helpers are `clamp`, `componenttohex`, `rgbtohex` and
    `hextorgb`.
- **squid simplex noise** (`squid/esm/fast-simplex-noise.js`).
  - The Fisher–Yates shuffle of the byte table `p`.
  - The 512-entry tables `perm` and `permMod12`.
  - The simplex-corner selection and gradient-index lookups of the 2D, 3D and
    4D noise closures.
- **squid fractal noise** (`squid/esm/fractal-noise.js`): the grid builders
  `makeLine`, `makeRectangle`, `makeCylinderSurface`, `makeSphereSurface` and
  `makeCuboid`, each an octave sum per cell.
- **audio crossfade** (`audio/xfade.js`).
  - A `Channel` is a taken or available player with a start time and a clip.
  - `XFadeRandomizer` picks the next start time and channel.
  - `schedulePlayback` fills the two channels.

Modules, one per file:

| module | file | models |
|---|---|---|
| `Wrappers` | wrappers.dfy | `Option`, `Result` |
| `HexColor` | hex_color.dfy | hex colour text |
| `Shapes` | shapes.dfy | the value part of a `Circle` and its copies |
| `Subdivision` | subdivision.dfy | `subdivide`'s radii and its callback trace, as data |
| `Circles` | circles.dfy | class `Circle`: links, `addtouching`, `subdivide` as a method |
| `Refresh` | refresh.dfy | `newgap` / `newrecurse` as jobs, and their termination |
| `Tasks` | tasks.dfy | tasks as data and the listener calls, shared by both queues |
| `WorkQueues` | work_queue.dfy | class `WorkQueue` |
| `AnimationQueues` | animation_queue.dfy | class `AnimationQueue` |
| `PrioQueues` | prio_queue.dfy | class `PrioQueue` over an insertion-ordered map |
| `Simplex` | simplex.dfy | shuffle, tables, corners and hashes |
| `FractalNoise` | fractal.dfy | the grid builders on arrays |
| `XFade` | xfade.dfy | classes `Channel` and `XFadeRandomizer` |

Conventions:

- **Queues.** A task is data: an identifier and the list of actions its body
  performs on its own queue. `Spawn(t)` calls `schedule`, `Stop` calls
  `cancel`, and `Throw` raises an exception, which ends the body.
  - The host's callback machinery is the `handle` flag (a callback is
    pending) and a `requests` counter.
  - The deadline of an idle callback is an oracle: `timeRemaining()` is
    positive on the first `fast` checks of the loop condition, and
    `didTimeout` is fixed for the call.
  - Listener calls are recorded in `calls`. Tasks run, thrown away or still
    waiting are tracked, so that FIFO order and exactly-once execution are
    invariants of the class.
- **Trigonometry and Apollonius.** The values that need trigonometry or the
  Apollonius solver are parameters:
  - `k` for `sin(PI / num)` and `dir` for the ring directions;
  - an `Env` holding `apollonius`, `atan2`-based `angle`, `calcsymm`, the sine
    and the ring;
  - `around` / `surface` for the cylinder and sphere points.
- **Randomness and time.** Draws of `Math.random` and the audio clock are
  parameters.

## Model

| member | source | states |
|---|---|---|
| `HexColor.Clamp` | paisl/js/index.js:61-63 | the result lies in `[lo, hi]` when the range is non-empty; it is `n` inside the range, `hi` above it and `lo` below it |
| `HexColor.ByteOf` | paisl/js/index.js:104 | `floor(min(max(c, 0), 255))` is a byte, and it is `floor(c)` for `c` in `[0, 256)` |
| `HexColor.Digit` | paisl/js/index.js:104 | the digit `toString(16)` writes for a value below 16 is a lower-case hex digit that reads back as that value |
| `HexColor.ComponentToHex` | paisl/js/index.js:101-106 | `-1` gives `""`; any other value gives exactly two lower-case hex digits that read back as the clamped, floored byte |
| `HexColor.AlphaByte` | paisl/js/index.js:122-124 | the alpha byte `clamp(floor(a * 255), 0, 255)` is a byte and equals the byte of `a * 255` |
| `HexColor.ChannelText` | paisl/js/index.js:119-125 | the two digits written for a clamped colour channel read back as that channel's byte |
| `HexColor.AlphaText` | paisl/js/index.js:122-125 | the two alpha digits read back as `floor(a * 255)` clamped to a byte |
| `HexColor.RgbToHex` | paisl/js/index.js:108-131 | the text is `#` and lower-case hex digits only: 8 digits when `a <= 1`, else 6 |
| `HexColor.ExpandShorthand` | paisl/js/index.js:85-89 | a rewritten text starts with six hex digits and is 8 long (four digits doubled) or 24 long (three digits doubled plus "undefinedundefined") |
| `HexColor.HexToRgb` | paisl/js/index.js:84-99 | every channel parsed is a byte; a null result means the shorthand rewrite did not fire |
| `HexColor.RoundTrip` | paisl/js/index.js:84-131 | `hextorgb(rgbtohex(r, g, b, a))` gives the clamped, floored channels, and alpha `floor(a * 255)` when `a <= 1` or 255 otherwise |
| `HexColor.ReadEight` | paisl/js/index.js:91-97 | exactly eight digits, with or without `#`, parse as four channels, pair by pair |
| `HexColor.ReadSix` | paisl/js/index.js:91-97 | six digits, with or without `#`, parse as three channels with alpha 255 |
| `HexColor.ShorthandThreeDigits` | paisl/js/index.js:86-97 | `rgb` or `#rgb` parses as each digit times 17, with alpha 255 reached through the unanchored pattern |
| `HexColor.ShorthandFourDigits` | paisl/js/index.js:86-97 | `rgba` or `#rgba` parses as each of the four digits times 17 |
| `HexColor.TrailingTextIgnored` | paisl/js/index.js:91-97 | six digits, with or without `#`, followed by anything other than exactly two more digits parse as those six, with alpha 255 |
| `HexColor.ShortTextRejected` | paisl/js/index.js:84-98 | fewer than six characters after the optional `#`, other than a 3- or 4-digit shorthand, give null |
| `HexColor.LongTextRejected` | paisl/js/index.js:84-98 | six or more characters after the optional `#` whose first six are not all hex digits give null |
| `Shapes.Make` | paisl/js/index.js:306-315 | the constructor stores `|r|` and sign `s`, with `s == -1` exactly when the given radius is negative; the signed radius is kept and `x`, `y`, `a`, `i` are unchanged |
| `Shapes.Shape.Inverse` | paisl/js/index.js:358-360 | the copy is normal, keeps centre, rotation and index, and negates the signed radius |
| `Shapes.Shape.Inner` | paisl/js/index.js:362-364 | the copy keeps the radius magnitude and is oriented inward (`s == -1`) when `r > 0` |
| `Shapes.Shape.Outer` | paisl/js/index.js:366-368 | the copy keeps the radius and is oriented outward (`s == +1`) |
| `Shapes.Shape.ShrinkToPoint` | paisl/js/index.js:370-372 | the copy has radius 0 and `s == +1` at the same centre |
| `Shapes.Shape.Grow` | paisl/js/index.js:341-343 | the signed radius is scaled by `factor` and the index becomes the pair built from the old one |
| `Shapes.InverseInvolution` | paisl/js/index.js:358-360 | inverting twice gives back any circle the constructor builds |
| `Shapes.OrientationIdempotent` | paisl/js/index.js:362-368 | `inner`/`outer` ignore the previous orientation and are idempotent; `outer` is the identity exactly on outward circles |
| `Shapes.InverseSwapsOrientation` | paisl/js/index.js:358-368 | inverting an outer copy gives the inner copy and, for `r > 0`, vice versa; a point is its own inverse |
| `Shapes.OverlapsByDistance` | paisl/js/index.js:374-382 | the squared-distance test agrees with `sqrt(dx² + dy²) < r1 + r2` |
| `Shapes.OverlapsSymmetric` | paisl/js/index.js:374-382 | overlap does not depend on argument order |
| `Shapes.Shape.Overlaps` | paisl/js/index.js:374-382 | concentric circles whose radii sum to more than zero overlap; two circles whose radii sum to zero never do |
| `Circles.Circle.constructor` | paisl/js/index.js:306-339 | normalised value; with a circle as parent, each side records the other; every listed touching circle and the new one record each other; a `WeakSet` argument links nothing |
| `Circles.Circle.Inverse` | paisl/js/index.js:358-360 | a fresh circle with the inverse value and no parent, child or touching links |
| `Circles.Circle.Inner` | paisl/js/index.js:362-364 | a fresh inner copy with no links |
| `Circles.Circle.Outer` | paisl/js/index.js:366-368 | a fresh outer copy with no links |
| `Circles.Circle.ShrinkToPoint` | paisl/js/index.js:370-372 | a fresh point copy with no links |
| `Circles.Circle.Grow` | paisl/js/index.js:341-343 | a fresh scaled copy with no links |
| `Circles.Circle.AddTouching` | paisl/js/index.js:345-356 | self and null change nothing; otherwise each circle is added to the other's touching set, and a symmetric relation stays symmetric |
| `Circles.Circle.Subdivide` | paisl/js/index.js:384-442 | the callbacks made are exactly `SubdivideTrace`; a rejected circle builds nothing; otherwise a fresh centre and `num` fresh ring circles are built with the closed-form values, as children of this circle, each touching this circle, the centre and its ring neighbours |
| `Circles.Circle.BuildRing` | paisl/js/index.js:392-401 | the ring loop builds `num` fresh circles with the values `RingChildren` gives, linked as `RingBuilt` says (first and last not linked) |
| `Circles.Circle.NewRingCircle` | paisl/js/index.js:394 | ring circle `subi` has the child value, this circle as parent, touches exactly this circle and the centre, and is added to both |
| `Circles.SubdivideCalls` | paisl/js/index.js:403-440 | the centre `recfn`, the ring `recfn` loop and the gap loop together make exactly the calls `SubdivideTrace` lists |
| `Circles.RecurseCalls` | paisl/js/index.js:410-418 | the `recfn` loop calls `RecurseVisits` in order, threading each result to the next accepted call, and records each filter verdict in `subfilt` |
| `Circles.GapCalls` | paisl/js/index.js:419-440 | the gap loop makes the calls `GapVisits` lists, threading inner and outer results separately |
| `Subdivision.RingRadius` | paisl/js/index.js:387 | `subr * (1 + k) == r * k`, and `subr >= 0` for `r >= 0` |
| `Subdivision.RingRadii` | paisl/js/index.js:387-389 | for `0 <= k <= 1`: the centre radius `r - 2 subr` is not negative; centre + `subr` equals the ring distance `r - subr`; ring circles touch the parent from inside and touch each other |
| `Subdivision.CentreShape` | paisl/js/index.js:389 | the centre circle is concentric, has radius `r - 2 subr`, and keeps the parent's orientation when it has a positive radius |
| `Subdivision.CentreOf` | paisl/js/index.js:389 | the centre circle is normal, concentric with the parent, keeps its rotation and has no subdivision index |
| `Subdivision.ChildOf` | paisl/js/index.js:394 | ring circle `j` is normal, has index `[j, num]` and sits at the ring position for direction `j`; for a parent radius `r >= 0` it has radius `subr` and outward orientation |
| `Subdivision.RingChildren` | paisl/js/index.js:392-401 | `n` values, the `j`-th being ring child `j` |
| `Subdivision.SubdivideTrace` | paisl/js/index.js:384-442 | a circle the filter rejects makes no callback call; otherwise at most `3 num + 1` calls |
| `Subdivision.Calls` | paisl/js/index.js:403-440 | at most `3 |ring| + 1` calls, and every `recfn` call comes before every `gapfn` call |
| `Subdivision.RecurseVisits` | paisl/js/index.js:410-418 | only `recfn` calls, at most one per remaining ring circle |
| `Subdivision.GapVisits` | paisl/js/index.js:419-440 | only `gapfn` calls, at most two per remaining ring circle |
| `Subdivision.UnfilteredTrace` | paisl/js/index.js:403-440 | with no filter: `3 num + 1` calls; the centre `recfn` (indices 0, 0, passed null) first; child `m`'s `recfn` at `1 + m`, passed call `m`'s result; pair `m`'s inner gap then outer gap at `1 + num + 2m`, each passed the previous gap of its kind |
| `Subdivision.UnfilteredCalls` | paisl/js/index.js:403-440 | the same positions and arguments, stated over any ring of accepted circles |
| `Subdivision.GapVisitsFiltered` | paisl/js/index.js:419-440 | under any filter, every gap call is for a ring circle `j` and its successor (the last paired with the first) that both passed the filter; it passes their outer copies and the indices `j` and `j + 1 % n`; its outer circle is the parent's inner copy or, only when the centre passed, the centre's outer copy |
| `Subdivision.AcceptedPairsMembers` | paisl/js/index.js:430 | a ring index is listed exactly when it and its successor (the last paired with the first) both passed the filter |
| `Subdivision.AcceptedPairsIncreasing` | paisl/js/index.js:421-440 | the accepted pairs are listed in strictly increasing ring order |
| `Subdivision.InnerGapsExact` | paisl/js/index.js:419-440 | with the centre rejected, the gap calls are exactly one inner gap per accepted pair, in ring order, each passed the previous call's result |
| `Subdivision.PairGapsExact` | paisl/js/index.js:419-440 | with the centre accepted, each accepted pair in ring order gets its inner gap and then the centre's gap, each passed the previous result of its own kind |
| `Subdivision.AcceptedPairVisited` | paisl/js/index.js:430-438 | conversely to `GapVisitsFiltered`, every pair that passed the filter gets its inner gap call, followed by the centre's gap call when the centre passed the filter |
| `Subdivision.RecurseVisitsFiltered` | paisl/js/index.js:411-418 | the ring `recfn` calls are exactly the accepted ring circles, in index order, each passed the previous call's result |
| `Subdivision.AcceptedRingMembers` | paisl/js/index.js:413-417 | a ring index is listed exactly when its circle passed the filter |
| `Subdivision.AcceptedRingIncreasing` | paisl/js/index.js:411-418 | the accepted indices are strictly increasing, so `recfn` calls follow ring order |
| `Subdivision.SecondIndexNeverWraps` | paisl/js/index.js:434 | `subi+1 % num` parses as `subi + (1 % num)`: for `num >= 2` it is `subi + 1`, which is `num` for the last pair although its partner circle is ring circle 0; for `num == 1` it is 0 |
| `Refresh.Select` | paisl/js/index.js:1454-1478 | none survives exactly when neither candidate passes the filter; a survivor passes it and is one of the two; when both pass, the survivor is at least as large as each |
| `Refresh.SelectKeepsLarger` | paisl/js/index.js:1470-1475 | when both candidates pass, the larger is kept (the first on a tie), though the comment beside the test says smaller |
| `Refresh.SelectSingle` | paisl/js/index.js:1477-1478 | when only one candidate passes, it is chosen |
| `Refresh.GapJobs` | paisl/js/index.js:1454-1493 | `newgap` schedules at most four jobs, none when both depths are spent; each is a recursion into one circle larger than `minrecsize` one recursion level down, or a gap one gap level down |
| `Refresh.RecurseJobs` | paisl/js/index.js:1495-1582 | nothing happens unless both depths are positive; only a single circle larger than `minradius` is drawn, at the call's depths; three circles schedule at most one job; one circle schedules only jobs the callbacks may schedule |
| `Refresh.Run` | paisl/js/index.js:1445-1582 | `newgap` draws nothing and schedules at most four jobs; a job draws at most one circle, the single circle of a `newrecurse` call, at the job's depths |
| `Refresh.GapJobsShape` | paisl/js/index.js:1480-1493 | with no survivor nothing is scheduled; otherwise an inner recursion first (when `recdepth > 0` and the circle exceeds `minrecsize`), then three gaps of the outer copy with each pair, one gap level down |
| `Refresh.CallbackJobs` | paisl/js/index.js:1532-1548 | each callback schedules at most one job, and only one a callback may schedule |
| `Refresh.TraceJobs` | paisl/js/index.js:1532-1551 | over a whole subdivision, at most one job per callback, each one a callback may schedule |
| `Refresh.ThreeForwards` | paisl/js/index.js:1499-1504 | with both depths positive, three circles go to `newgap` at the same depths; otherwise nothing happens |
| `Refresh.OneCircleDrawn` | paisl/js/index.js:1499-1582 | one circle is drawn exactly when both depths are positive and it exceeds `minradius`; it schedules work only when it also exceeds `minrecsize` |
| `Refresh.GapJobsDescend` | paisl/js/index.js:1485-1493 | every job `newgap` schedules is strictly lower in the measure |
| `Refresh.RunDescends` | paisl/js/index.js:1445-1551 | every job any job schedules is strictly lower in the measure, so the recursion terminates |
| `Tasks.Fired` | paisl/js/index.js:1125-1128 | every listener is called, in order, with the `canceled` flag |
| `Tasks.Accepted` | paisl/js/index.js:1137-1153 | a canceled queue accepts nothing, and a body adds no more tasks than it has actions |
| `Tasks.Spawned` | paisl/js/index.js:1146 | a body that only spawns schedules its tasks in order |
| `Tasks.SpawnsOnlyAccepted` | paisl/js/index.js:1137-1153 | a body that only spawns gets all its tasks onto a live queue and never cancels |
| `Tasks.AcceptedAppend` | paisl/js/index.js:1116-1120 | after a spawn-only prefix, later actions still take effect |
| `Tasks.ThrowEndsBody` | paisl/js/index.js:1116-1120 | whatever follows a throw has no effect on the queue |
| `Tasks.RunFrontLighter` | paisl/js/index.js:1207-1215 | running the front task leaves a lighter queue, so draining without a budget ends |
| `WorkQueues.WorkQueue.constructor` | paisl/js/index.js:1056-1064 | an empty, live, not-done queue with nothing pending |
| `WorkQueues.WorkQueue.After` | paisl/js/index.js:1066-1075 | on a done queue the listener is called at once with `canceled`; otherwise it is appended |
| `WorkQueues.WorkQueue.Cancel` | paisl/js/index.js:1077-1098 | the queue is emptied (its tasks thrown away) and canceled, and nothing is pending; outside `run` it becomes done and calls every listener with `true`, every time, because the guard reads the never-set `canceled` |
| `WorkQueues.WorkQueue.Schedule` | paisl/js/index.js:1137-1153 | a canceled queue ignores the task; otherwise it joins the back; a callback is requested exactly when none is pending and no `run` is active |
| `WorkQueues.WorkQueue.Execute` | paisl/js/index.js:1116-1120 | a task body run inside `run` adds the tasks it schedules to the back, its `cancel` cancels without calling listeners, and a throw ends it |
| `WorkQueues.WorkQueue.Drain` | paisl/js/index.js:1111-1121 | tasks run from the front while time remains, or while the callback timed out and fewer than `m` have run; the loop stops only when empty, canceled or out of budget; at most `max(fast, m)` tasks run |
| `WorkQueues.WorkQueue.Run` | paisl/js/index.js:1100-1135 | the budget bounds as above with `m` twice the entry length; the queue becomes done, calling every listener once, exactly when it ends empty or canceled and was not done; a new callback is requested exactly when tasks remain on a live queue; every queued task is run once, thrown away once, or still waiting, in FIFO order |
| `AnimationQueues.AnimationQueue.constructor` | paisl/js/index.js:1162-1170 | an empty, live, not-updating queue |
| `AnimationQueues.AnimationQueue.After` | paisl/js/index.js:1172-1181 | on a done queue the listener is called at once; otherwise it is appended |
| `AnimationQueues.AnimationQueue.Cancel` | paisl/js/index.js:1183-1201 | emptied, canceled and done, with nothing pending; the listeners are called with `true` only when not inside `run` |
| `AnimationQueues.AnimationQueue.Schedule` | paisl/js/index.js:1232-1248 | a live queue appends the task; a frame is requested only when none is pending and the queue is not updating |
| `AnimationQueues.AnimationQueue.Execute` | paisl/js/index.js:1209-1214 | a task body run inside `run` appends what it schedules and may cancel (which marks done without calling listeners) |
| `AnimationQueues.AnimationQueue.Drain` | paisl/js/index.js:1206-1215 | tasks run from the front, including those scheduled meanwhile, until the queue is empty or canceled |
| `AnimationQueues.AnimationQueue.Run` | paisl/js/index.js:1203-1230 | the queue always ends empty and done, with no frame requested; every listener is called on every `run`, because `||` binds looser than `&&` |
| `PrioQueues.Without` | paisl/js/index.js:1000 | removing a key from the key order keeps every other key, keeps keys distinct, and changes nothing when the key is absent |
| `PrioQueues.Got` | paisl/js/index.js:983-987 | `get` makes the priority present with its list (empty if new) and changes no other priority |
| `PrioQueues.InsertedLast` | paisl/js/index.js:988-990 | the value is appended to that priority's list; other lists are unchanged |
| `PrioQueues.InsertedFirst` | paisl/js/index.js:991-993 | the value is prepended to that priority's list; other lists are unchanged |
| `PrioQueues.Set` | paisl/js/index.js:985-986 | `prios.set`: the priority's list is replaced, a new priority joins the end of the key order, and the map stays well formed |
| `PrioQueues.SetTwice` | paisl/js/index.js:985-986 | setting a priority twice is setting it once to the second list |
| `PrioQueues.SetSame` | paisl/js/index.js:985-986 | setting a priority to the list it holds changes nothing |
| `PrioQueues.DeleteAfterSet` | paisl/js/index.js:998-1001 | deleting a priority undoes any earlier setting of it |
| `PrioQueues.Delete` | paisl/js/index.js:998-1001 | the priority and its list are gone from the map and the key order; the map stays well formed |
| `PrioQueues.Least` | paisl/js/index.js:1016-1018 | the smallest key, and a key of the map |
| `PrioQueues.Greatest` | paisl/js/index.js:1019-1021 | the largest key, and a key of the map |
| `PrioQueues.PrioQueue.constructor` | paisl/js/index.js:980-982 | an empty map |
| `PrioQueues.PrioQueue.Get` | paisl/js/index.js:983-987 | the new map is `Got` of the old one, and the list returned is the priority's list |
| `PrioQueues.PrioQueue.InsertLast` | paisl/js/index.js:988-990 | the new map is `InsertedLast` of the old one |
| `PrioQueues.PrioQueue.InsertFirst` | paisl/js/index.js:991-993 | the new map is `InsertedFirst` of the old one |
| `PrioQueues.PrioQueue.Remove` | paisl/js/index.js:994-1001 | with no priority, the map is cleared; with a priority, it is deleted |
| `PrioQueues.PrioQueue.MinPrio` | paisl/js/index.js:1016-1018 | the smallest key, or none for an empty map |
| `PrioQueues.PrioQueue.MaxPrio` | paisl/js/index.js:1019-1021 | the largest key, or none for an empty map |
| `PrioQueues.PrioQueue.Pop` | paisl/js/index.js:1027-1036 | result and new map are `Popped` of the old map |
| `PrioQueues.PrioQueue.Shift` | paisl/js/index.js:1037-1046 | result and new map are `Shifted` of the old map |
| `PrioQueues.Popped` | paisl/js/index.js:1027-1036 | the map `pop` leaves is well formed |
| `PrioQueues.Shifted` | paisl/js/index.js:1037-1046 | the map `shift` leaves is well formed |
| `PrioQueues.Total` | paisl/js/index.js:1022-1026 | the count `length` evidently means: no list is longer, and it is 0 exactly when every list is empty |
| `PrioQueues.PopTakesLastOfHighest` | paisl/js/index.js:1027-1036 | `pop` returns `[null, null]` exactly on an empty map; otherwise it returns the highest priority and the last value of its list, or no value when that list is empty |
| `PrioQueues.ShiftTakesFirstOfLowest` | paisl/js/index.js:1037-1046 | `shift` returns `[null, null]` exactly on an empty map; otherwise it returns the lowest priority and the first value of its list, or no value when that list is empty |
| `PrioQueues.InsertAddsOne` | paisl/js/index.js:988-993 | each insertion adds one value to the total held |
| `PrioQueues.PopRemovesOne` | paisl/js/index.js:1027-1036 | `pop` removes exactly the value it returns, and nothing from an empty map |
| `PrioQueues.ShiftRemovesOne` | paisl/js/index.js:1037-1046 | `shift` removes exactly the value it returns, and nothing from an empty map |
| `PrioQueues.TidyKeptByInsert` | paisl/js/index.js:983-993 | inserting keeps every list non-empty; a bare `get` of a new priority leaves an empty list behind |
| `PrioQueues.TidyKeptByTake` | paisl/js/index.js:1027-1046 | `pop` and `shift` delete emptied lists, so on a map with no empty list they always return a value |
| `PrioQueues.PopAfterInsertLast` | paisl/js/index.js:988-990 | inserting last and popping at a highest priority gives back the value and the map as it was, with a new key deleted again |
| `PrioQueues.ShiftAfterInsertFirst` | paisl/js/index.js:991-993 | inserting first and shifting at a lowest priority gives back the value and the map as it was |
| `PrioQueues.ShiftIsFifoWithinPriority` | paisl/js/index.js:1037-1046 | at the lowest, non-empty priority, `shift` returns values in insertion order: inserting last commutes with shifting |
| `PrioQueues.SetTotal` | paisl/js/index.js:983-993 | replacing a priority's list changes the total by the difference in length |
| `PrioQueues.DeleteTotal` | paisl/js/index.js:998-1001 | deleting a priority removes its list's length from the total |
| `Simplex.Pick` | squid/esm/fast-simplex-noise.js:43 | `floor((i + 1) * random())` lies in `0..i` for a draw in `[0, 1)` |
| `Simplex.Swap` | squid/esm/fast-simplex-noise.js:44-46 | the entries at `i` and `n` are exchanged and nothing else changes |
| `Simplex.Identity` | squid/esm/fast-simplex-noise.js:35-37 | the table holds `0, 1, ..., 255` |
| `Simplex.SwapAt` | squid/esm/fast-simplex-noise.js:44-46 | the in-place swap equals `Swap` on the table's contents |
| `Simplex.Shuffle` | squid/esm/fast-simplex-noise.js:42-47 | the in-place loop leaves the table equal to `Shuffled` of its old contents |
| `Simplex.ShuffledPermutes` | squid/esm/fast-simplex-noise.js:42-47 | the swap loop only reorders the table |
| `Simplex.ShuffleIsPermutation` | squid/esm/fast-simplex-noise.js:35-47 | the shuffled table holds every byte `0..255` exactly once |
| `Simplex.BuildTables` | squid/esm/fast-simplex-noise.js:49-55 | `perm` is `p` twice over and `permMod12[i] == perm[i] % 12` |
| `Simplex.MakeTables` | squid/esm/fast-simplex-noise.js:35-55 | the factory's table setup yields the shuffled table twice over and its residues |
| `Simplex.PermHoldsEachByteTwice` | squid/esm/fast-simplex-noise.js:49-55 | `perm` holds every byte exactly twice |
| `Simplex.Fold` | squid/esm/fast-simplex-noise.js:49-55 | `perm` reads the same at indices equal modulo 256 |
| `Simplex.Corners2Of` | squid/esm/fast-simplex-noise.js:71-83 | exactly one of `i1`, `j1` is 1, `i1` exactly when `x0 > y0`; every index stays within the 512-entry tables and every `Grad2` index is below 12 |
| `Simplex.Corners2Hashes` | squid/esm/fast-simplex-noise.js:79-83 | each corner's gradient index is that of its own lattice point |
| `Simplex.SharedCorner2` | squid/esm/fast-simplex-noise.js:79-83 | neighbouring cells agree on the gradient of the lattice point they share |
| `Simplex.Offsets3` | squid/esm/fast-simplex-noise.js:149-171 | the second corner has one unit offset along a largest coordinate, the third two, leaving out a smallest coordinate, and it contains the second |
| `Simplex.Index3` | squid/esm/fast-simplex-noise.js:186-192 | every nested `perm` index is below 512 |
| `Simplex.Corners3Of` | squid/esm/fast-simplex-noise.js:186-192 | the corners come from the offset selection, and every `Grad3` index is below 12 |
| `Simplex.Corners3Hashes` | squid/esm/fast-simplex-noise.js:186-192 | each of the four corners' gradient index is that of its own lattice point |
| `Simplex.RanksOf` | squid/esm/fast-simplex-noise.js:261-270 | six comparisons give four ranks in `0..3` summing to 6 |
| `Simplex.RanksOrder` | squid/esm/fast-simplex-noise.js:265-270 | a coordinate outranks another exactly when it is larger, ties going to the later one |
| `Simplex.RanksArePermutation` | squid/esm/fast-simplex-noise.js:261-270 | the ranks are 0, 1, 2 and 3 in some order |
| `Simplex.Threshold` | squid/esm/fast-simplex-noise.js:276-289 | the offsets for threshold `t` have exactly `4 - t` ones |
| `Simplex.ThresholdsNest` | squid/esm/fast-simplex-noise.js:276-289 | the three inner corners each add one step to the previous |
| `Simplex.Index4` | squid/esm/fast-simplex-noise.js:316-320 | every nested `perm` index is below 512 |
| `Simplex.Gradient4` | squid/esm/fast-simplex-noise.js:316-320 | every `Grad4` index is below 32 |
| `Simplex.Simplex4` | squid/esm/fast-simplex-noise.js:276-320 | five corners from the origin through the three thresholds to the far corner, each with a `Grad4` index below 32 |
| `Simplex.Corners4Of` | squid/esm/fast-simplex-noise.js:261-320 | the corners are those of the ranking of `x0, y0, z0, w0` |
| `Simplex.Corners4Hashes` | squid/esm/fast-simplex-noise.js:312-320 | each of the five corners' gradient index is that of its own lattice point |
| `FractalNoise.Cell` | squid/esm/fractal-noise.js:16-24 | a cell is `NaN` exactly when there are no octaves |
| `FractalNoise.FillCell` | squid/esm/fractal-noise.js:16-24 | the octave loop and division compute `Cell`: the weighted octave sum over `2 - 1/2^(octaves-1)`, then `scale` |
| `FractalNoise.MakeLine` | squid/esm/fractal-noise.js:55-69 | `length` cells, each the cell formula sampled at `frequency · 2^octaves` |
| `FractalNoise.MakeRectangle` | squid/esm/fractal-noise.js:71-89 | `width` columns of `height` cells, each the cell formula at `(x, y)` |
| `FractalNoise.MakeCylinderSurface` | squid/esm/fractal-noise.js:31-53 | `circumference` columns of `height` cells, each the cell formula at column `x`'s point on the circle |
| `FractalNoise.MakeSphereSurface` | squid/esm/fractal-noise.js:91-116 | an odd circumference throws `RangeError`; otherwise `circumference` columns of `circumference / 2` cells, each the cell formula at its sphere point |
| `FractalNoise.MakeCuboid` | squid/esm/fractal-noise.js:8-29 | `width` slices of `height` rows of `depth` cells, each the cell formula at `(x, y, z)` |
| `FractalNoise.DivisorIsWeights` | squid/esm/fractal-noise.js:22 | the divisor `2 - 1/2^(n-1)` is the total octave weight at amplitude 1 and persistence 0.5 |
| `FractalNoise.DivisorAtLeastOne` | squid/esm/fractal-noise.js:22 | with at least one octave the divisor lies in `[1, 2)` |
| `FractalNoise.OctaveSumBound` | squid/esm/fractal-noise.js:17-21 | noise values in `[-1, 1]` keep the octave sum within the total weight |
| `FractalNoise.Normalised` | squid/esm/fractal-noise.js:16-22 | at the default amplitude and persistence, noise in `[-1, 1]` gives cells in `[-1, 1]` |
| `FractalNoise.DefaultsGiveRawNoise` | squid/esm/fractal-noise.js:4-7 | with the default options a cell is the raw noise value |
| `FractalNoise.LineSamplesOneFrequency` | squid/esm/fractal-noise.js:61 | `makeLine` samples every octave at one frequency, so a cell is one noise value times the weight ratio, and at the defaults exactly that value |
| `XFade.FirstAvailable` | audio/xfade.js:140-147 | the first available channel in array order, or none when every channel is taken |
| `XFade.End` | audio/xfade.js:88-94 | 0 for an available channel; for a taken one, the clip's duration after its start |
| `XFade.Channel.EndTime` | audio/xfade.js:88-94 | the `endTime` getter: 0 when available, else the start time plus the clip's duration |
| `XFade.NextStart` | audio/xfade.js:150-159 | `currentTime` when every channel is available; otherwise `currentTime` or `endTime - overlap` of some taken channel |
| `XFade.Next` | audio/xfade.js:149-167 | fails exactly when no channel is available; otherwise the first available channel takes the clip at `NextStart` and every other channel is unchanged |
| `XFade.NextStartBounds` | audio/xfade.js:150-159 | the start time is not before `currentTime`, nor before `endTime - overlap` of any taken channel |
| `XFade.NextStartIsLeast` | audio/xfade.js:150-159 | the start time is the least time meeting both bounds |
| `XFade.Channel.constructor` | audio/xfade.js:49-67 | an available, silent channel with no clip |
| `XFade.Channel.ScheduleClip` | audio/xfade.js:96-116 | the channel records the clip and start time, and is taken and playing |
| `XFade.Channel.Ended` | audio/xfade.js:79-84 | the channel is freed and the mixer's next clip is scheduled, which always succeeds |
| `XFade.XFadeRandomizer.constructor` | audio/xfade.js:120-131 | two fresh, available channels |
| `XFade.XFadeRandomizer.GetRandomClip` | audio/xfade.js:133-138 | the clip under the first key, whatever the draw |
| `XFade.XFadeRandomizer.GetAvailableChannel` | audio/xfade.js:140-147 | the first available channel, or null exactly when none is available |
| `XFade.XFadeRandomizer.ScheduleNextClip` | audio/xfade.js:149-167 | `false` with nothing changed when no channel is free; otherwise `true`, and the first free channel takes the clip at the computed start time |
| `XFade.ReleasedChannelIsReused` | audio/xfade.js:79-84 | a channel freed by its `ended` listener makes the next schedule succeed on it or an earlier free channel |
| `XFade.StagesFollowNext` | audio/xfade.js:127-130 | from a fresh mixer, scheduling fills channel 0, then channel 1, then fails |
| `XFade.SchedulePlayback` | audio/xfade.js:179-191 | exactly two clips are scheduled: the first now, the second `overlap` before the first ends, or now if that is later |
| `XFade.NextKeepsConsistent` | audio/xfade.js:149-167 | scheduling keeps every channel consistent (playing exactly while taken, holding a clip) and keeps the number of channels |

## Left out

- Floating-point effects are not modelled: NaN, infinities and rounding. Numbers are mathematical reals, and `Math.floor` is exact.
- Square roots, trigonometry and the Apollonius solver are parameters. This covers `sin(PI / num)`, the ring directions, `atan2` in `angle`, `calcsymm`, and the cylinder and sphere mappings. Their own values are not modelled.
- The generation field `g` of a circle is not modelled. The gap depth pair `newgap` stores there only shades the drawing.
- Drawing is left out: SVG groups, transforms and colour shaping in `newrecurse`. The drawing task it schedules on the animation queue is recorded as a `Drawn` entry.
- `Refresh.Env`: `symm` is assumed to give a ring size of at least 1. `calcsymm` (paisl/js/index.js:1325-1328) rounds a wrapped value into the symmetry slider range `[symmin, symmax]`, and its inputs are not modelled, so the type `Count` carries that assumption.
- `Refresh.Run`: the link from a `WorkQueue` task to a job is stated on values, as the jobs a job schedules. The queue model treats task bodies as opaque action lists. Task bodies that are jobs are not plugged into `WorkQueues.WorkQueue`.
- `Circles.Circle.Overlaps` has no contract of its own. Its meaning is stated on values by `Shapes.OverlapsByDistance` and `Shapes.OverlapsSymmetric`.
- `Circles.Circle.constructor`: the `a` of a circle is fixed at construction. `newgap` overwrites it once on the circle `apollonius` returns; that step is modelled on values in `Refresh.GapJobs`.
- `PrioQueue.remove` with a value (paisl/js/index.js:1002-1014) and `length` (1022-1026) are not modelled. They call `elems`, `each`, `remove` and `delete`, which `Map` and `Array` do not have. `PrioQueues.Total` states the count `length` evidently means.
- `PrioQueues.PrioQueue.Get` returns the contents of the priority's list, not the live array. A caller that later mutates the returned array is not modelled; `insertlast` and `insertfirst`, the source's own callers, are modelled directly.
- The `PrioQueue` map is an insertion-ordered key list plus a map. `minprio`/`maxprio` sort the keys; the model computes the same least and greatest key with a loop.
- `WorkQueues.WorkQueue.Run`: `timeRemaining()` is taken to be monotone. It is positive for the first `fast` checks and zero afterwards, so a clock that goes back to positive is not modelled.
- `AnimationQueues.AnimationQueue.Drain`: the drain terminates only for finite task trees, measured by `Tasks.Weight`. A task that schedules itself forever is not modelled.
- Console logging, the host's `requestIdleCallback`/`requestAnimationFrame`, and cancelling a pending callback are modelled only by the `handle` flag and the `requests` counter.
- Listeners are identifiers, and calling one is recorded. What a listener does, including calling back into the queue, is not modelled.
- The Web Audio graph is left out: gain nodes, buffer sources, `source.start`, the gain envelope, and the non-standard `param.clear()`. The model assumes those calls return normally.
- `XFade.XFadeRandomizer.GetRandomClip` requires a non-empty playlist. An empty one would hand `undefined` to `scheduleClip`, which fails on `clip.duration`.
- `XFade.XFadeRandomizer.ScheduleNextClip` requires a non-empty playlist, because it calls `getRandomClip` first. With every channel taken, the source returns `false` even for an empty playlist, before touching the clip. The requires also excludes that harmless case, which the fixed playlist never reaches.
- `XFade.SchedulePlayback` requires a non-empty playlist, for the same reason. It also holds `currentTime` fixed across its calls, because the audio clock is a parameter.
- `XFade.Channel.Ended` requires a non-empty playlist, for the same reason.
- `FractalNoise.Cell`: with no octaves the cell is `NaN`, and `scale` is not applied to it. The source would pass `NaN` to `scale`, which a real-valued function cannot take.
- The `Grad2`, `Grad3` and `Grad4` gradient vectors and the corner contributions are not modelled. Only the indices into those tables are. The 3D table lists `[0, -1, -1]` twice, which only affects the values.
- `makeFractalNoise2D`/`3D`/`4D` are not modelled. They assign the undeclared `freq` in strict mode, so they would throw before computing anything.
- The object and two-argument forms of `rgbtohex` are not modelled. They unpack `{r, g, b, a}` and then behave as the four-argument form, which is modelled.
- `fetchAudio`/`fetchPlaylist` and the DOM set-up are left out. They are network and page code.
- Where the code and the documented intent disagree, the model follows the code:
  - `newgap` keeps the larger candidate.
  - The queues' `done` flag is never reset, so a queue fires its listeners on one drain only. The exceptions are `WorkQueue.cancel`, whose guard never blocks, and `AnimationQueue.run`, which fires on every run.
  - `makeLine` samples every octave at `2^octaves`.
