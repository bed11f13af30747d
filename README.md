# Woof: a verified model of the walk, bone-drop and reward rules

Woof is a dog-walking web app. A walk session turns GPS samples into a distance, a duration
and a path. Walks and "bone drops" scattered near parks earn bones, the app's currency, which
are kept in a wallet and an append-only transaction ledger. Bones are spent in a marketplace
on store deals and on scratch-card coupons. Around that core sit small rules: mission claims,
the feed's relative times, pack membership counts, pack walk scheduling and RSVPs, pack Q&A
and the like button.

This project is a Dafny model of those rules, with proofs of what each of them promises. It
follows the application file by file:

| Dafny file | module | application file |
|---|---|---|
| walk_session.dfy | `WalkSession` | src/hooks/useWalkSession.js |
| bone_drops.dfy | `BoneDrops` | src/hooks/useBoneDrops.js |
| bone_drop_rules.dfy | `BoneDropRules` | src/utils/boneDrops.js |
| seed_drops.dfy | `SeedDrops` | src/utils/seedBoneDrops.js |
| walk_tracker.dfy | `WalkTracker` | src/components/WalkTracker.jsx |
| marketplace.dfy | `Marketplace` | src/pages/Marketplace.jsx |
| scratch_card.dfy | `ScratchCard` | src/components/ScratchCard.jsx |
| feed.dfy | `Feed` | src/components/Feed.jsx |
| play_page.dfy | `PlayPage` | src/pages/PlayPage.jsx |
| mission_card.dfy | `MissionCard` | src/components/MissionCard.jsx |
| pack_detail.dfy | `PackDetail` | src/pages/PackDetail.jsx |
| pack_walks.dfy | `PackWalks` | src/components/PackWalks.jsx |
| pack_qa.dfy | `PackQA` | src/components/PackQA.jsx |
| post_card.dfy | `PostCard` | src/components/PostCard.jsx |

Five modules are shared by the others:

- `Common`: optional values, `Math.round` and `Math.floor(random * n)`.
- `Text`: decimal rendering, `trim`, lower-casing, and one-character `replace`.
- `Seqs`: `filter`, stable `sort`, `slice` and `find`, with their lemmas.
- `Geo`: positions and the Haversine formula.
- `Store`: the backend tables as one value. Each request is a function from the old tables
  to the new ones, with a flag saying whether it fails.

Components whose handlers change state step by step are classes. Their fields are the
component's state, and their methods are the handlers, each specified against the old state.
Pure rules are functions and lemmas.

Outside inputs are parameters:

- The distance function (`Geo.Distance`); every property holds whatever it is.
- The random draws: reals in [0, 1).
- Clock readings: integer milliseconds.
- The ids the database assigns.
- Whether each request fails.

## Model

| member | source | states |
|---|---|---|
| Common.Round | src/hooks/useWalkSession.js:121 | `Math.round` gives the integer within half a unit, halves rounding up |
| Common.ScaleDraw | src/utils/boneDrops.js:63 | `Math.floor(r * n)` for a draw in [0, 1) is an index below n |
| Text.PadStart | src/components/WalkTracker.jsx:24 | `padStart` gives the width asked for, the original text at the end, the filler before it |
| Text.TrimEmptyIffBlank | src/components/Feed.jsx:58 | `trim()` is empty exactly when the text is whitespace only |
| Text.RemoveFirstSpec | src/pages/PackDetail.jsx:205 | `replace('&', '')` removes only the first '&' and leaves a text without one alone |
| Seqs.SortBy | src/hooks/useBoneDrops.js:40-45 | the numeric-key sort gives a sorted permutation of its input |
| Seqs.TakeSortedPrefix | src/hooks/useBoneDrops.js:46 | the first n of a sorted list are sorted, and nothing left out has a smaller key than something kept |
| Seqs.FilterSubseq | src/hooks/useBoneDrops.js:136 | `filter` keeps the surviving elements in their original order |
| Seqs.Find | src/hooks/useBoneDrops.js:104 | `find` gives nothing exactly when no element passes, else the first element that passes |
| Geo.HaversineSamePoint | src/utils/boneDrops.js:2-15 | a point is at distance 0 from itself |
| Geo.HaversineSymmetric | src/hooks/useWalkSession.js:15-28 | the formula gives the same distance in both directions when sine is odd |
| Store.ReadBalance | src/hooks/useBoneDrops.js:108-112 | the balance read gives data exactly when the row exists and the request succeeds |
| Store.CreditWallet | src/hooks/useBoneDrops.js:107-123 | the read-then-write credit: other wallets untouched; with both requests succeeding the balance is old (or 0) plus the amount; a failed write changes nothing |
| WalkSession.AcceptsExactly | src/hooks/useWalkSession.js:49-56 | a step is kept exactly when it exceeds 5 m and either no time passed (speed 0) or it is under 25 m/s |
| WalkSession.TeleportRejected | src/hooks/useWalkSession.js:54-56 | 1000 m in one second is dropped |
| WalkSession.TunnelAccepted | src/hooks/useWalkSession.js:55-56 | 600 m in a minute is kept |
| WalkSession.JitterRejected | src/hooks/useWalkSession.js:53-56 | steps of at most 5 m are dropped whatever the time |
| WalkSession.JudgeStamped | src/hooks/useWalkSession.js:42-60 | with a stamped anchor each sample is either accepted, on exactly the filter's condition, or rejected |
| WalkSession.Session.constructor | src/hooks/useWalkSession.js:4-12 | the session starts idle at 0 s, 0 m, an empty path and no anchor |
| WalkSession.Session.Start | src/hooks/useWalkSession.js:65-80 | walking, timer on, elapsed 0, distance 0, empty path, no anchor; the fallback watcher starts only with no external position and geolocation available |
| WalkSession.Session.StartAsWritten | src/hooks/useWalkSession.js:71 | the start as written: the anchor becomes the bare external position |
| WalkSession.Session.OnSample | src/hooks/useWalkSession.js:31-63 | ignored unless walking with a position; the first sample sets the path to it and anchors it; an accepted sample adds exactly its distance, appends it and re-anchors; otherwise nothing changes; distance never falls and the path only grows |
| WalkSession.Session.OnWatchSample | src/hooks/useWalkSession.js:81-98 | the watcher appends every point, adds the step only when over 2 m, and always moves the anchor |
| WalkSession.Session.Tick | src/hooks/useWalkSession.js:74-76 | each tick of the running timer adds exactly one second |
| WalkSession.Session.End | src/hooks/useWalkSession.js:106-128 | the summary carries the start, the rounded distance, the elapsed seconds and the path; the session goes idle with the timer and watcher stopped |
| WalkSession.FirstSampleAfterStart | src/hooks/useWalkSession.js:37-40 | after a corrected start the first sample becomes the anchor and the whole path |
| WalkSession.FirstSampleAfterStartAsWritten | src/hooks/useWalkSession.js:71 | as written, the first sample after a start with a known position faults |
| WalkSession.WalkAsWritten | src/hooks/useWalkSession.js:71 | as written, such a walk records 0 m and an empty path whatever samples follow |
| WalkSession.EndToEndWalk | src/hooks/useWalkSession.js:65-127 | start, two samples a minute apart, sixty ticks and end give 60 s, 1113 m and a two-point path |
| BoneDropRules.ParksWithinRadius | src/utils/boneDrops.js:40-47 | every park returned is within the radius converted at 1609.34 m per mile |
| BoneDropRules.ParksWithinRadiusExactly | src/utils/boneDrops.js:40-47 | exactly the safe parks within the radius are returned, in their original order |
| BoneDropRules.GenerateBoneValue | src/utils/boneDrops.js:50-58 | shared drops are worth 20..100 bones, any other 5..20 |
| BoneDropRules.GenerateBoneValueCovers | src/utils/boneDrops.js:50-58 | every value of each range is drawn by some random number |
| BoneDropRules.RandomPark | src/utils/boneDrops.js:61-64 | nothing exactly for an empty list, otherwise a member of the list |
| BoneDropRules.LiveAtExpiry | src/utils/boneDrops.js:67-69 | expiry is strict: a drop is still live at its own expiry instant |
| BoneDropRules.DrawTimeToday | src/utils/boneDrops.js:84-88 | the drawn time is on a minute boundary between 8:00 and 17:59 of the day |
| BoneDropRules.RandomTimeToday | src/utils/boneDrops.js:80-95 | nothing exactly when the drawn time is already past, otherwise that time |
| BoneDrops.InRadiusMembers | src/hooks/useBoneDrops.js:17-37 | the candidates are exactly the uncollected rows expiring after now and within 1000 m |
| BoneDrops.VisibleSpec | src/hooks/useBoneDrops.js:17-46 | at most 3 drops shown, min(candidates, 3) of them, sorted by distance, each a candidate, none left out strictly closer than one shown |
| BoneDrops.FindNearest | src/hooks/useBoneDrops.js:55-81 | nothing without a position or drops; nothing exactly when no drop is within 30 m; otherwise the first drop at minimum distance among those within 30 m, with that distance |
| BoneDrops.ClaimRows | src/hooks/useBoneDrops.js:92-99 | the conditional update marks exactly the uncollected rows with that id as collected by the user |
| BoneDrops.ClaimRowsUnmatched | src/hooks/useBoneDrops.js:92-99 | an update that matches no row leaves the drops table unchanged |
| BoneDrops.ClaimRowsExhausts | src/hooks/useBoneDrops.js:92-99 | after the update no row with that id can still be claimed |
| BoneDrops.Credit | src/hooks/useBoneDrops.js:103-140 | success exactly when the local list holds the drop; then the bones earned are its value, the wallet is credited and one `drop_collect` entry appended; drops, walks and coupons are untouched |
| BoneDrops.CollectTxAsWritten | src/hooks/useBoneDrops.js:90-146 | as written: a failed claim changes nothing; otherwise the rows are claimed and the collection succeeds exactly when the local list holds the drop, crediting its value to the wallet; a failed collection leaves wallets and ledger alone |
| BoneDrops.AsWrittenCreditsUnmatched | src/hooks/useBoneDrops.js:92-101 | as written, a claim that matches no row still credits the drop's value to whoever holds it locally, and the drops table is left unchanged |
| BoneDrops.CollectTxChecked | src/hooks/useBoneDrops.js:92-101 | corrected: a claim matching no row fails as already collected and changes nothing |
| BoneDrops.CollectCredits | src/hooks/useBoneDrops.js:107-133 | a collection raises the collector's balance by exactly the bones earned, from 0 with no wallet; other balances do not change; the ledger gains one entry of that amount |
| BoneDrops.RunCheckedExhausted | src/hooks/useBoneDrops.js:92-101 | a drop nobody can claim is never credited, however many attempts follow |
| BoneDrops.CheckedAtMostOnce | src/hooks/useBoneDrops.js:92-101 | with the matched-row check, any sequence of attempts credits a drop at most once |
| BoneDrops.AsWrittenCreditsTwice | src/hooks/useBoneDrops.js:92-101 | as written, two users holding the same 50-bone drop are both credited 50, with two ledger entries |
| BoneDrops.CheckedCreditsOnce | src/hooks/useBoneDrops.js:92-101 | with the check, the second of those users is refused and nothing changes |
| BoneDrops.Engine.constructor | src/hooks/useBoneDrops.js:8-10 | no drops, nothing collectable, not collecting |
| BoneDrops.Engine.FetchDrops | src/hooks/useBoneDrops.js:13-52 | with a position and a successful query the shown drops become the visible set; otherwise they stay |
| BoneDrops.Engine.UpdateNearby | src/hooks/useBoneDrops.js:55-82 | the collectable drop is the nearest within 30 m, or nothing exactly when none is |
| BoneDrops.Engine.BeginCollect | src/hooks/useBoneDrops.js:86-88 | a collection starts exactly with a truthy user id (present and non-empty) and none under way, and raises the flag |
| BoneDrops.Engine.FinishCollect | src/hooks/useBoneDrops.js:90-146 | the tables and result are the checked transaction's; on success the shown drops become exactly the old list filtered to other ids (every other drop kept, with its multiplicity and order), and nothing is collectable; on failure the list stays; the flag always drops |
| BoneDrops.DoubleTap | src/hooks/useBoneDrops.js:86-88 | the first tap starts exactly with a non-empty user id; a second tap while the first is in flight is refused |
| SeedDrops.Placeholders | src/utils/seedBoneDrops.js:20-24 | three placeholder spots, all at the user's position |
| SeedDrops.Candidates | src/utils/seedBoneDrops.js:13-25 | the parks within 0.62 miles, or the placeholders exactly when there are none; never empty |
| SeedDrops.SharedDrop | src/utils/seedBoneDrops.js:31-47 | drop i is shared, ownerless, worth 20..100, expires at midnight, sits around park i mod n and is named after it, or 'Mystery Drop' for placeholders |
| SeedDrops.SharedBatch | src/utils/seedBoneDrops.js:31-47 | the loop builds exactly n drops, drop i from park i mod the number of parks |
| SeedDrops.BuildSharedDrops | src/utils/seedBoneDrops.js:27-48 | 2 or 3 drops, floor(coin * 2) + 2 of them, drop i built from park i mod n |
| SeedDrops.SharedDropsPlacement | src/utils/seedBoneDrops.js:31-44 | with no park near, every drop is a 'Mystery Drop' around the user; otherwise each is named after and placed around a safe park within 0.62 miles |
| SeedDrops.PersonalDrop | src/utils/seedBoneDrops.js:67-97 | undefined exactly without a truthy user id (absent or empty); null exactly without a nearby park; otherwise a personal drop owned by the user, worth 5..20, at a nearby park |
| SeedDrops.ClearExpiredSpec | src/utils/seedBoneDrops.js:116-135 | clearing keeps exactly the rows not expired, in order, and is idempotent |
| SeedDrops.SeedNear | src/utils/seedBoneDrops.js:28-102 | the added rows are exactly the built drops (`SeededRows`): unless the shared insert fails, floor(coin × 2) + 2 rows, row i being shared drop i of the candidates under `ids[i]`; then the personal drop under `ids[3]`, when there is one and its insert succeeds; nothing else; and every fact `SeededRowsShape` states about such rows |
| SeedDrops.SeededRowsShape | src/utils/seedBoneDrops.js:143-148 | seeded rows number at most 4, at least 2 when the shared insert succeeds; shared rows ownerless with a shared value, the personal row last, the user's, with a personal value, present with a truthy user id, a nearby park and a successful insert, absent without either; every row expires at midnight uncollected |
| SeedDrops.DailyReset | src/utils/seedBoneDrops.js:138-152 | expired drops are cleared first and kept ahead of new ones; nothing is seeded unless both coordinates are truthy, and then the new rows are exactly those `SeedNear` adds at those coordinates (`SeededRows`), live until midnight and uncollected; no personal drop without a truthy user id or without a park near the given coordinates; other tables unchanged |
| WalkTracker.FormatClock | src/components/WalkTracker.jsx:21-25 | the clock is all digits but one colon three from the end; the digits before it read as seconds div 60 and the two after it as seconds mod 60 |
| WalkTracker.FormatClockRoundTrip | src/components/WalkTracker.jsx:21-25 | reading the clock back gives the seconds it was made from |
| WalkTracker.WalkBones | src/components/WalkTracker.jsx:60-64 | no bones up to 100 m, at least 5 above |
| WalkTracker.WalkBonesInteger | src/components/WalkTracker.jsx:60-64 | above 100 m the reward is max(5, (d + 25) div 50): a floor of 5, not 5 on top |
| WalkTracker.WalkBonesMonotone | src/components/WalkTracker.jsx:60-64 | a longer walk never earns fewer bones |
| WalkTracker.WalkBonesExamples | src/components/WalkTracker.jsx:60-64 | 1000 m earns 20, 200 m 5, 125 m 5, 1430 m 29, 100 m nothing |
| WalkTracker.PersistWalk | src/components/WalkTracker.jsx:68-123 | nothing without a user; the walk, then the `walk_earn` entry, then the wallet credit, each only if the previous step succeeded |
| WalkTracker.PersistWalkCredits | src/components/WalkTracker.jsx:87-116 | a fully saved walk raises the balance by exactly its bones, recorded in the newest ledger and walk rows |
| WalkTracker.HandleEnd | src/components/WalkTracker.jsx:56-66 | ending gives the session's summary exactly: its start time, the end time `now`, the rounded distance, the elapsed seconds and the path; bones from the rounded distance; and the save of both |
| Marketplace.RedeemCode | src/pages/Marketplace.jsx:146 | the code is 'WOOF' followed by four digits that read as a number in 1000..9999 |
| Marketplace.MarkRedeemed | src/pages/Marketplace.jsx:179-185 | only the coupon with that id is marked redeemed by the user |
| Marketplace.Page.constructor | src/pages/Marketplace.jsx:13-20 | the page starts with the given balance, no unlocked cards, no won coupons, no modal |
| Marketplace.Page.RedeemDeal | src/pages/Marketplace.jsx:111-155 | refused with no change when short or cancelled; spent exactly when both requests succeed, then the balance is lower by the cost, the debit is the negated cost and the wallet holds the pre-click balance minus the cost; on failure the cost is added back, the store is untouched when the debit insert failed, and the debit stays with the wallet untouched when the wallet write failed |
| Marketplace.Page.UnlockCard | src/pages/Marketplace.jsx:157-209 | refused with no change when short or cancelled; spent exactly when the wallet and coupon requests succeed, then the cost is deducted, the card unlocked, the coupon marked and the debit logged; on failure balance restored, card removed from the set and no debit logged; the store is untouched when the wallet write failed, and the wallet keeps the deduction with the coupon unmarked when the coupon update failed |
| Marketplace.Page.RevealCard | src/pages/Marketplace.jsx:211-230 | a 'NO-LUCK' card changes nothing; any other is put first in the won list and its code shown |
| Marketplace.RedeemThenFail | src/pages/Marketplace.jsx:150-154 | a redemption whose wallet write fails leaves the shown balance where it was |
| ScratchCard.TransparentInBound | src/components/ScratchCard.jsx:65-69 | the transparent count never exceeds the number of pixels |
| ScratchCard.CountTransparent | src/components/ScratchCard.jsx:63-67 | the loop counts exactly the alpha bytes (indices 4k + 3) holding 0 |
| ScratchCard.ScratchedEnoughExactly | src/components/ScratchCard.jsx:69-71 | the reveal test holds exactly when more than 40% of the pixels are transparent and there are any |
| ScratchCard.Card.constructor | src/components/ScratchCard.jsx:6-7 | a new card is neither scratched nor revealed |
| ScratchCard.Card.ChangeProps | src/components/ScratchCard.jsx:11-14 | a different store name or cost resets scratched and revealed |
| ScratchCard.Card.Scratch | src/components/ScratchCard.jsx:39-75 | ignored while locked, without a canvas, or once revealed; otherwise reveals exactly past the 40% threshold; once revealed stays revealed |
| Feed.ElapsedSeconds | src/components/Feed.jsx:97 | the difference is floored to whole seconds |
| Feed.Bucket | src/components/Feed.jsx:99-102 | under 60 s (negative included) is just now; then minutes below an hour, hours below a day, days; each count is the floored quotient |
| Feed.BucketCounts | src/components/Feed.jsx:100-102 | the counts shown are at least 1, minutes below 60, hours below 24 |
| Feed.FormatTimeText | src/components/Feed.jsx:94-103 | the words shown: 'Just now', 'Nm ago', 'Nh ago' or 'Nd ago' |
| Feed.RenderInjective | src/components/Feed.jsx:99-102 | different buckets read differently |
| Feed.Page.constructor | src/components/Feed.jsx:12-16 | no posts, empty input, dialog closed, not posting |
| Feed.Page.CreatePost | src/components/Feed.jsx:57-92 | whitespace-only text is not posted; a post is created exactly with text, a user and a successful insert, then put first, the input cleared and the dialog closed |
| MissionCard.PercentOf | src/components/MissionCard.jsx:15 | the bar is at most 100%, finite for a non-zero total |
| MissionCard.PercentPositiveTotal | src/components/MissionCard.jsx:14-15 | with a positive total, the bar is full exactly when the claim button shows, and below the total is progress / total * 100 |
| MissionCard.ZeroTotalMission | src/components/MissionCard.jsx:14-15 | a mission with total 0 and no progress is complete yet its bar width is NaN |
| PlayPage.InitialMissionsClaimable | src/pages/PlayPage.jsx:10-14 | of the starting missions only the first is complete |
| PlayPage.RewardOfUnique | src/pages/PlayPage.jsx:29-37 | with unique ids a claim adds that mission's reward, and 0 for an unknown id |
| PlayPage.VisibleMissionsSpec | src/pages/PlayPage.jsx:86-93 | the shown missions are the unclaimed ones in order, and 'All missions completed' shows exactly when none is left |
| PlayPage.Page.constructor | src/pages/PlayPage.jsx:8-14 | 1250 bones and the three starting missions |
| PlayPage.Page.Claim | src/pages/PlayPage.jsx:29-37 | missions with that id are claimed, all others unchanged, length and order kept; the balance rises by the reward |
| PlayPage.ClaimMorningSniffari | src/pages/PlayPage.jsx:29-37 | claiming the first mission gives 1300 bones and leaves two missions shown |
| PackDetail.FallbackPack | src/pages/PackDetail.jsx:72 | the demo pack with the requested id, or the first demo pack when none has it |
| PackDetail.LeftCount | src/pages/PackDetail.jsx:117 | leaving lowers the count by one, never below 0, a missing count read as 0 |
| PackDetail.JoinThenLeave | src/pages/PackDetail.jsx:91-117 | joining then leaving restores any non-negative or missing count |
| PackDetail.TabId | src/pages/PackDetail.jsx:205 | the tab id has no capitals and one character less when the label has an '&' |
| PackDetail.TabIds | src/pages/PackDetail.jsx:204-205 | the tabs 'Q&A', 'Walks', 'Buddies' have ids 'qa', 'walks', 'buddies' |
| PackDetail.Page.constructor | src/pages/PackDetail.jsx:17-18 | no pack shown, not a member |
| PackDetail.Page.FetchDetails | src/pages/PackDetail.jsx:32-78 | the loaded pack and membership; on a failed load with nothing shown, the demo fallback |
| PackDetail.Page.Join | src/pages/PackDetail.jsx:80-102 | a successful join makes the user a member with count (count or 0) + 1; a failure changes nothing |
| PackDetail.Page.Leave | src/pages/PackDetail.jsx:104-122 | a confirmed, successful leave ends membership with the lowered count; otherwise nothing changes |
| PackDetail.JoinAndLeave | src/pages/PackDetail.jsx:80-122 | joining then leaving a loaded pack gives back its count |
| PackWalks.AttendeeCount | src/components/PackWalks.jsx:161 | a missing attendee count reads as 0 |
| PackWalks.BuildRsvpMap | src/components/PackWalks.jsx:47-50 | a walk is in the map, marked going, exactly when some RSVP row names it |
| PackWalks.BumpCount | src/components/PackWalks.jsx:112-118 | only the walks with that id gain one attendee, from 0 when missing |
| PackWalks.Board.constructor | src/components/PackWalks.jsx:10-15 | no walks, no RSVPs, an empty form, dialog closed |
| PackWalks.Board.FetchWalks | src/components/PackWalks.jsx:21-59 | the fetched walks, and with a user and a successful RSVP query the map of walks marked going |
| PackWalks.Board.ScheduleWalk | src/components/PackWalks.jsx:61-97 | scheduled exactly with a title, date, time, user and a successful insert; then the list is the old walks plus the new one sorted by start time, and the form is closed and cleared |
| PackWalks.Board.Rsvp | src/components/PackWalks.jsx:99-124 | a successful RSVP marks the walk going, keeps other entries and bumps only that walk's count |
| PackQA.Board.constructor | src/components/PackQA.jsx:10-17 | no questions, no answers, nothing expanded, empty forms |
| PackQA.Board.AskQuestion | src/components/PackQA.jsx:45-77 | a whitespace-only title is refused; a question is asked exactly with a title, a user and a successful insert, then put first and the form closed and reset |
| PackQA.Board.ToggleQuestion | src/components/PackQA.jsx:79-88 | the expanded question collapses; another expands, and its answers are fetched exactly when none are held |
| PackQA.Board.FetchAnswers | src/components/PackQA.jsx:90-106 | loaded answers replace that question's entry only |
| PackQA.Board.PostAnswer | src/components/PackQA.jsx:108-137 | a whitespace-only answer is refused; otherwise it is appended to that question's answers, started if absent, and the input cleared |
| PackQA.OpenCloseReopen | src/components/PackQA.jsx:79-88 | opening fetches; closing and reopening does not fetch again |
| PackQA.PostAnswerKeepsOthers | src/components/PackQA.jsx:127-130 | on a fresh board, answers loaded for one question are still there, unchanged, after a successful post to another |
| PostCard.Card.constructor | src/components/PostCard.jsx:4-5 | not liked, showing the post's count |
| PostCard.Card.HandleLike | src/components/PostCard.jsx:7-14 | liking adds one, unliking takes one away, and the count stays the post's count plus one while liked |
| PostCard.LikeTwice | src/components/PostCard.jsx:7-14 | one press shows one more like; two presses restore the count, unliked |
| PostCard.PressTwice | src/components/PostCard.jsx:7-14 | two presses restore any card's state |

## Left out

- Network requests: the backend client's wire format, joins such as the `profiles` selects, and the `increment_pack_members` RPC. Each request is a function on the tables plus a flag saying whether it fails.
- Concurrency: the model runs requests one after another. Wallet read-then-write races across devices, which can lose an update, are not modelled. React's batched state updates and the stale `drops` closure inside `collectDrop` are not modelled either.
- Floating point is modelled as exact reals:
  - display values (`toFixed` miles and the step estimate);
  - the seeding coordinate offsets;
  - `Math.round`.
  The mission percentage keeps floating point's non-finite results for a zero total.
- Geo.Haversine: the sine, cosine, square root and arctangent are parameters (`Geo.Trig`). Elsewhere distance is an arbitrary function.
- Randomness, clocks, time zones and calendar dates are parameters: the random draws, `Date.now`, the next midnight, local midnight, and the ISO start time of a scheduled walk.
- Browser APIs:
  - the geolocation watch is represented only by the `watching` flag and its callback;
  - the `setInterval` timer is represented only by the `timerRunning` flag and `Tick`;
  - the canvas is represented only by its `getImageData` bytes;
  - alerts and `window.confirm` become a `confirmed` parameter.
- Loading and submitting flags (`loading` on every page, `submitting` in PackQA and PackWalks) are not modelled. They only drive what is displayed. Feed's `posting` flag is modelled.
- `fetchQuestions` in PackQA and the marketplace's profile, deal and coupon fetches are not modelled. They only load lists without changing them.
- Text.ToLower: lower-cases ASCII letters only. The tab labels are ASCII.
- PackDetail.Page.Join and PackDetail.Page.Leave require a loaded pack. The page shows its buttons only after loading ends, and by then the pack has been set, either from the query or from the demo fallback.
- PackWalks.Board.ScheduleWalk: the new walk's count is taken as absent; it reads as 0 either way.
- ScratchCard.Card: `isScratched` is never set to true anywhere in the component, so the model keeps it false except as given.
- Marketplace.Page.RedeemDeal follows the code: a ledger debit already written stays even when the wallet write then fails and the shown balance is rolled back.
- Marketplace.Page.UnlockCard follows the code: a wallet deduction already written stays even when the coupon update then fails and the shown balance is rolled back.
- BoneDrops.Credit follows the code: a drop missing from the local list fails the collection after the claim has already been written, so the drop is left claimed but uncredited.
- WalkTracker.WalkBones follows the code: the 5-bone minimum is a floor, while the source comment says "5 base + 20 per km".
- WalkSession.AcceptsExactly follows the code: a sample with no elapsed time counts as speed 0, so a step over 5 m at the same instant is accepted.

## Findings

| source | as written | input that shows it | evidently intended | confidence | as-written member | corrected member |
|---|---|---|---|---|---|---|
| src/hooks/useWalkSession.js:71 | `startWalk` stores the bare `[lat, lon]` external position as the anchor, but the sample handler reads `.pos` and `.time` from the anchor | a walk started while an external position is known; the first sample after it | the anchor starts empty (or as `{pos, time}`), so the first sample anchors the path | not executed | WalkSession.FirstSampleAfterStartAsWritten, WalkSession.WalkAsWritten | WalkSession.Session.Start, WalkSession.FirstSampleAfterStart |
| src/hooks/useBoneDrops.js:92-101 | the claim of a drop checks only for an error, never the number of rows it matched, so a drop already collected by someone else is still credited | two users holding the same uncollected 50-bone drop collect it one after the other | a claim matching no row fails, so each drop is credited at most once | not executed | BoneDrops.CollectTxAsWritten, BoneDrops.AsWrittenCreditsUnmatched, BoneDrops.AsWrittenCreditsTwice | BoneDrops.CollectTxChecked, BoneDrops.CheckedAtMostOnce, BoneDrops.Engine.FinishCollect |
