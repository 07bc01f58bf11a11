# Flappy-bird game core and leaderboard store, modelled in Dafny

This project models the two pieces of the browser arcade game that carry
logic:

- the **leaderboard store** (`LeaderboardService`): a top-ten list of
  entries kept in non-increasing score order by a stable sort, written to a
  local-storage slot after every change, with listeners that are called on
  every change and once when they subscribe;
- the **game stepper** of the `App` component: the collision test, the
  per-frame update (fall, roll back on collision, obstacle scroll, cull and
  spawn, pass-once scoring), the start/run/over machine driven by `jump`,
  and the validation gate between a finished round and the leaderboard.

Files and modules:

| file | module | what |
|---|---|---|
| `wrappers.dfy` | `Wrappers` | `Option`, for the storage slot |
| `ranking.dfy` | `Ranking` | `Entry`, the stable descending sort `SortDesc`, truncation, and what `addScore` leaves behind (`Added`) |
| `leaderboard.dfy` | `Leaderboard` | class `LeaderboardService`: scores, listeners, slot, and a ghost log of saves and listener calls |
| `text.dfy` | `Text` | `String.prototype.trim` |
| `physics.dfy` | `Physics` | constants, `Player`, `Obstacle`, collision, scroll/cull, spawn and scoring as functions |
| `game.dfy` | `Game` | class `App` (the game-state hooks), `Jump`, `Update`, `AwardPasses`, the save button, `HandleScoreSubmit` |

Modelling choices:

- Coordinates and velocities are exact `real`s (gravity is 0.5 per frame).
- `Math.random()` in the spawn rule becomes the parameter `topHeight` with
  `60 <= topHeight < 360`, the range `Math.random() * 300 + 60` covers.
- Entry ids and timestamps (`Date.now()`, `Math.random()`) are parameters.
- Listeners are opaque `nat` ids; a listener call is recorded in the ghost
  `log` as `Notified(id, snapshot)`, and a write to local storage as
  `Saved(snapshot)`, so the order "save, then notify every listener in
  registration order" is part of each mutation's contract.
- The `flappy-bird-leaderboard` slot is an `Option<seq<Entry>>`: `None`
  stands for a slot that is missing or does not parse.
- The React state hooks of `App` become the fields of one object, and one
  call of `Update` is one call of `updateGame` with its state updates applied
  together: collision is tested against the obstacles as they were before
  the frame, scoring uses the player's column before the frame, and the
  obstacle step runs on the crashing frame too.
- The service's sort is `Array.prototype.sort`, which ECMA-262 (since
  ES2019) requires to be stable; `SortDesc` is an insertion sort that puts
  each element after all elements of equal score, and
  `StableSortIsSortDesc` proves it is the only sorted order that keeps
  equal-score entries in input order.

Details of the code that are easy to misread, which the model follows as
written:

- `addScore` itself validates nothing; the blank-name and non-positive-score
  filter sits in `handleScoreSubmit` (src/App.tsx:56-61) and the save button.
- Position is advanced with the velocity from before the frame, and gravity
  is added to the velocity at the same time.
- The obstacles scroll, spawn and score even on the frame that ends the
  round; only the next call is blocked.
- `notifyListeners` iterates the live listener array, not a snapshot.

## Model

| member | source | states |
|---|---|---|
| `Ranking.Insert` | src/services/leaderboardService.ts:58-59 | inserting an entry adds exactly that entry to the multiset of entries |
| `Ranking.SortDesc` | src/services/leaderboardService.ts:59 | the sort is a permutation of its input |
| `Ranking.SortDescSorted` | src/services/leaderboardService.ts:59 | the sort's result is in non-increasing score order |
| `Ranking.SortDescStable` | src/services/leaderboardService.ts:59 | entries with equal score keep their relative input order (the sort is stable) |
| `Ranking.SortedUnique` | src/services/leaderboardService.ts:59 | two sorted lists that agree score by score are equal |
| `Ranking.StableSortIsSortDesc` | src/services/leaderboardService.ts:59 | any sorted list that keeps each score's entries in input order is exactly the model's sort |
| `Ranking.SortDescOfSorted` | src/services/leaderboardService.ts:59 | sorting an already sorted list leaves it unchanged |
| `Ranking.InsertSorted` | src/services/leaderboardService.ts:58-59 | inserting into a sorted list keeps it sorted |
| `Ranking.InsertStable` | src/services/leaderboardService.ts:58-59 | among entries of one score, an inserted entry comes last |
| `Ranking.InsertPosition` | src/services/leaderboardService.ts:58-59 | in a sorted list the entry goes right after all entries scoring at least as much |
| `Ranking.Take` | src/services/leaderboardService.ts:60 | `slice(0, 10)`: keeps min(length, n) entries, a prefix of the list |
| `Ranking.Added` | src/services/leaderboardService.ts:58-60 | what addScore leaves behind: at most 10 entries, a prefix of the stable descending sort of old list plus the new entry (its meaning is given by the `Added…` lemmas below) |
| `Ranking.AddedSortedAndBounded` | src/services/leaderboardService.ts:58-60 | after addScore the list is sorted and its length is min(old length + 1, 10), for any old list |
| `Ranking.AddedKeepsTheBest` | src/services/leaderboardService.ts:58-60 | every kept entry is an old one or the new one, and every entry the truncation drops scores no higher than every kept one |
| `Ranking.AddedKeepsEntryWhenRoom` | src/services/leaderboardService.ts:50-60 | with fewer than 10 entries the new entry is always kept, whatever its name and score |
| `Ranking.AddedAfterTies` | src/services/leaderboardService.ts:58-59 | the new entry lands after every existing entry with the same score |
| `Ranking.AddedPosition` | src/services/leaderboardService.ts:58-59 | on a sorted list the new entry is placed right after all entries scoring at least as much, and nothing else moves |
| `Ranking.AddedToFullBoard` | src/services/leaderboardService.ts:58-60 | a full sorted board is unchanged by a score no higher than its tenth |
| `Ranking.InsertTake` | src/services/leaderboardService.ts:58-60 | the first n entries after an insertion depend only on the first n before it, so truncating first loses nothing |
| `Ranking.AddedTopOfHistory` | src/services/leaderboardService.ts:58-60 | adding to the top 10 of the stable sort of a history gives the top 10 of the stable sort of the history plus the new entry |
| `Ranking.Board` | src/services/leaderboardService.ts:50-64 | the list after addScore was called with a sequence of entries on an empty list holds at most 10 entries |
| `Ranking.BoardIsTopOfHistory` | src/services/leaderboardService.ts:58-60 | after any sequence of addScore calls from an empty list, the list is the first 10 of the stable descending sort of every entry added |
| `Ranking.BoardKeepsTheBest` | src/services/leaderboardService.ts:58-60 | after any sequence of addScore calls the list is sorted, holds min(count, 10) of the entries added, and every entry left off scores no higher than every entry kept |
| `Leaderboard.Load` | src/services/leaderboardService.ts:26-36 | the list the service starts from is the stored one, or empty when nothing readable is stored |
| `Leaderboard.Broadcast` | src/services/leaderboardService.ts:46-48 | one notification per registered listener (order and payload: `BroadcastAt`, `BroadcastOnly`) |
| `Leaderboard.IndexOf` | src/services/leaderboardService.ts:83 | -1 exactly when the listener is absent; otherwise the position of its first occurrence |
| `Leaderboard.RemoveFirst` | src/services/leaderboardService.ts:83-86 | removes exactly one registration when the listener is registered, and nothing otherwise (which one, the first: `RemoveFirstSpec`) |
| `Leaderboard.RemoveFirstSpec` | src/services/leaderboardService.ts:82-87 | unsubscribe removes the first registration of the listener when present and nothing otherwise; the other listeners keep their order |
| `Leaderboard.UnsubscribeTwice` | src/services/leaderboardService.ts:82-87 | for a listener registered once, calling unsubscribe a second time changes nothing |
| `Leaderboard.UnsubscribedNotNotified` | src/services/leaderboardService.ts:82-87 | for a listener registered once, after unsubscribing a notification no longer reaches it |
| `Leaderboard.OthersStillNotified` | src/services/leaderboardService.ts:46-48 | after one listener unsubscribes, every other registered listener is still called |
| `Leaderboard.BroadcastAt` | src/services/leaderboardService.ts:46-48 | notification calls every listener exactly once, in registration order, with the snapshot |
| `Leaderboard.BroadcastOnly` | src/services/leaderboardService.ts:46-48 | notification calls only registered listeners, and only with the snapshot |
| `Leaderboard.LeaderboardService.constructor` | src/services/leaderboardService.ts:15-17 | a new service has no listeners and starts from the stored list, or from an empty one when the slot is missing or unreadable |
| `Leaderboard.LeaderboardService.LoadScores` | src/services/leaderboardService.ts:26-36 | run on the still empty list at construction: the list becomes the stored one, or stays empty when the slot is missing or unreadable |
| `Leaderboard.LeaderboardService.SaveScores` | src/services/leaderboardService.ts:38-44 | the slot holds the current list and one save is logged |
| `Leaderboard.LeaderboardService.NotifyListeners` | src/services/leaderboardService.ts:46-48 | every listener is called once, in order, with the current list |
| `Leaderboard.LeaderboardService.AddScore` | src/services/leaderboardService.ts:50-64 | the list becomes the first 10 of the stable descending sort of old list plus the new entry, is sorted, is saved, then every listener is notified |
| `Leaderboard.LeaderboardService.ClearScores` | src/services/leaderboardService.ts:66-70 | the list is empty, the empty list is saved, then every listener is notified |
| `Leaderboard.LeaderboardService.GetScores` | src/services/leaderboardService.ts:72-74 | returns a sequence equal to the current list and changes nothing |
| `Leaderboard.LeaderboardService.Subscribe` | src/services/leaderboardService.ts:76-80 | the listener is appended and called exactly once, at once, with the current list |
| `Leaderboard.LeaderboardService.Unsubscribe` | src/services/leaderboardService.ts:82-87 | the registry loses the first occurrence of the listener, if any |
| `Text.LeadingSpace` | src/App.tsx:57 | counts the white-space run at the start: all white space, followed by a non-white-space character or the end |
| `Text.TrailingSpace` | src/App.tsx:57 | counts the white-space run at the end, in the same sense |
| `Text.Trim` | src/App.tsx:57 | the trimmed name starts and ends with a non-white-space character |
| `Text.TrimIsInfix` | src/App.tsx:57 | trimming cuts only white space, from both ends, and keeps the rest in place |
| `Text.TrimEmptyIff` | src/App.tsx:58 | a name trims to empty exactly when it is all white space |
| `Text.TrimIdempotent` | src/App.tsx:469-471 | trimming a trimmed name changes nothing, so the save button's name is the one handleScoreSubmit stores |
| `Physics.CheckCollision` | src/App.tsx:122-134 | leaving the playfield vertically always collides, and with no obstacles nothing else does (the obstacle case: `CollisionIff`) |
| `Physics.HitsAny` | src/App.tsx:126-133 | the obstacle loop reports a hit iff some obstacle overlaps the player horizontally (strictly) while the player leaves its gap |
| `Physics.CollisionIff` | src/App.tsx:122-134 | collision whenever y <= 0 or y + size >= 600, whatever the obstacles; otherwise iff some obstacle is hit; never with no obstacles |
| `Physics.Fall` | src/App.tsx:150-154 | one frame of fall: x and size stay, y moves by the velocity from before the frame, and the velocity grows by the gravity 0.5 |
| `Physics.Scroll` | src/App.tsx:166-169 | the map-and-filter step (`Shift` moves one obstacle left by 2): the list never grows and every obstacle left on it is on screen |
| `Physics.ScrollMembers` | src/App.tsx:166-169 | after the scroll, an obstacle is present iff it is an old one moved left by 2 that is still on screen |
| `Physics.ScrollKeepsAll` | src/App.tsx:166-169 | when the leftmost obstacle survives the cull, every obstacle does, each moved left by 2 |
| `Physics.ScrollDropsPrefix` | src/App.tsx:166-169 | on spaced obstacles the cull removes only a run of the leftmost ones, and the rest keep their order and fields, moved left by 2 |
| `Physics.ScrollWellFormed` | src/App.tsx:166-169 | scrolling keeps every gap and the spacing, hence the left-to-right order |
| `Physics.NeedsSpawn` | src/App.tsx:171 | spawns when there is no obstacle; on spaced obstacles a spawn means every obstacle is left of x = 150 |
| `Physics.NewObstacle` | src/App.tsx:172-178 | a new obstacle is at the right edge x = 400, unpassed, with a gap of height 180 inside the playfield |
| `Physics.Spawn` | src/App.tsx:171-179 | the old obstacles stay as a prefix and at most one is appended: a well-formed one at x = 400, unpassed |
| `Physics.SpawnCount` | src/App.tsx:171-179 | exactly one obstacle is appended, iff the list is empty or the last x < 150, and it is at x = 400, unpassed, with bottomY = topHeight + 180 |
| `Physics.SpawnWellFormed` | src/App.tsx:171-179 | spawning keeps every gap in range and consecutive obstacles more than 250 apart |
| `Physics.GapFits` | src/App.tsx:172-176 | a spawned gap has height 180 and both pipe segments have positive height inside the 600-high playfield |
| `Physics.SpacedIncreasing` | src/App.tsx:171-173 | spaced obstacles are strictly increasing in x |
| `Physics.MarkPassed` | src/App.tsx:182-185 | one step of the scoring loop: only the flag changes, and it is set afterwards iff it was set or the obstacle's right edge is left of the player |
| `Physics.PassAll` | src/App.tsx:181-186 | the scoring loop's result keeps every obstacle (which flags change: `PassAllFlags`) |
| `Physics.NewlyPassed` | src/App.tsx:181-186 | the number of obstacles that score now, never more than there are (`PassAllCount` ties it to the flags) |
| `Physics.PassAllFlags` | src/App.tsx:181-186 | scoring changes only passed flags: passed obstacles stay passed and an unpassed one becomes passed iff its right edge is left of the player |
| `Physics.PassAllCount` | src/App.tsx:181-186 | the score rises by exactly the number of flags turned on |
| `Physics.NewlyPassedBound` | src/App.tsx:181-186 | only unpassed obstacles can score |
| `Physics.PassAllDone` | src/App.tsx:181-186 | after scoring, no obstacle can score again |
| `Physics.PassAllWellFormed` | src/App.tsx:181-186 | scoring keeps gaps and spacing |
| `Game.App.constructor` | src/App.tsx:39-53 | the initial state: not started, player at (80, 300) with no velocity and size 36, no obstacles, score 0 |
| `Game.App.SetPlayerName` | src/App.tsx:453 | the name field holds the typed name |
| `Game.App.Jump` | src/App.tsx:77-109 | from not started: running with score 0, no obstacles, y = 300, velocity 0; while running: only velocity := -9; when over: back to not started with score 0, no obstacles, y = 300, velocity 0, name cleared and the saved flag reset |
| `Game.App.AwardPasses` | src/App.tsx:181-186 | the obstacles become their scored version and the score rises by the number newly passed |
| `Game.App.Update` | src/App.tsx:136-190 | only a running round changes; the player falls by its old velocity unless that collides with the pre-frame obstacles, in which case it stays and the round is over; obstacles scroll, spawn and score on every running frame; the score never decreases; the state invariant (player inside the playfield, gaps in range, obstacles spaced) is kept |
| `Game.App.SaveToLeaderboard` | src/App.tsx:468-476 | submits the trimmed name and score once per round, only for a non-blank name and a positive score, and otherwise leaves the leaderboard unchanged |
| `Game.HandleScoreSubmit` | src/App.tsx:56-61 | adds the trimmed name and score only when the trimmed name is non-empty and the score positive; otherwise the leaderboard, its slot and its listeners see nothing |

## Left out

- Drawing, stars, particles, the crash popup's visibility and the screen layout (src/App.tsx:63-75, 87-97, 139-147, 192-316): presentation built on floating-point randomness.
- The `requestAnimationFrame` loop, its cancellation and the keyboard listener (src/App.tsx:318-348): host scheduling; the loop is repeated calls of `Game.App.Update`.
- React's scheduling of state updates (batching, deferred updater functions, double invocation in strict mode): one `Update` applies one frame's updates together.
- JSON serialization and `console.error` logging in the service: the slot is abstract, and a slot that parses to something other than a list of entries is not modelled.
- Leaderboard.LeaderboardService.SaveScores: a failed write (for example a full quota) is caught and ignored by the source; the model always writes.
- The player-name slot (`flappy-bird-player-name`): its prefill on load and its write from the save button (src/App.tsx:115-120, 472).
- Generation of entry ids and timestamps: they are parameters, and nothing makes them unique.
- `simulateRealTimeUpdates` (src/services/leaderboardService.ts:91-100): a timer driven by random numbers.
- The `getInstance` singleton: the model passes the service object explicitly.
- Listeners that unsubscribe while being notified: the callbacks are foreign code and `forEach` runs over the live array.
- src/components/Leaderboard.tsx: a view; its high-score predicate and rank labels are not part of this model.
- IEEE-754 arithmetic: coordinates are exact reals, and scores are integers (a non-integer or NaN score passed to `addScore` is not modelled).
- Serialization of the `flappy-bird-leaderboard` slot: `JSON.stringify` and `JSON.parse` (src/services/leaderboardService.ts:30, 40) are not modelled, so saving and then loading gives back the same list by construction, not by proof.
- The name field's `maxLength={20}` (src/App.tsx:454): nothing in the model bounds the length of a stored name.
- A listener subscribed twice: each `subscribe` returns a closure that removes the first registration of that listener, so calling one closure twice removes the other registration too; `Leaderboard.UnsubscribeTwice` and `Leaderboard.UnsubscribedNotNotified` are stated for a single registration (with two, the listener is still called after one unsubscribe), which is what the leaderboard view's fresh closures give.
- Physics.SpawnWellFormed: states spacing of more than 250 between consecutive obstacles, not the exact 252 that the 2-pixel steps from x = 400 produce, because that needs a lattice invariant on every x.
