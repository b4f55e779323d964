# Kanban board game: verified model of the game rules

`game.js` is a browser Kanban board game. Twenty user stories move from a
hidden catalog onto the board. They pass through backlog, prioritized, analysis,
development and testing, and end up deployed. To do the work, they draw on a
pool of nine typed staff resources (three analysts, three developers and three
testers). Every round, each allocated resource delivers a random effort of 4 to
8 points to the phase it matches. A story whose phase runs out of effort moves
on and gives its resources back. Every deployed story pays its price every
round.

This project models the game's rule core in Dafny:

- the story registry and backlog refill;
- the card move rules, with their WIP (work-in-progress) limits and
  transition table;
- the resource handlers: dropping a resource on a card, or back on the
  waiting area;
- the round simulation.

The rules are written at two levels.

- **Value-level modules.** `Kanban`, `ResourcePool`, `StoryRegistry`,
  `Holdings`, `MoveRules`, `Allocation` and `RoundRules` state each rule as a
  function, and prove its properties as lemmas.
  - `Move`, `Allocate`, `ReturnToPool` and `Round` give the outcome of each
    command on the board's state.
  - `Held` / `Conserved` give the central invariant: the waiting area and all
    allocation lists together hold each staff resource exactly once, and
    nothing else.
- **The `Game` module.** It holds the mutable state (`Game.Board`) and the
  event handlers. They update the state step by step, as the source does,
  with its loops.
  - Each handler's `ensures` ties the new state to the value-level rule.
  - Each handler keeps `Valid()`, which is registry consistency plus
    conservation.

State: the story records are values in `catalog`, which models
`allStoriesData`. `active` models `activeStories`. It lists catalog
positions, so a story changed through one array is changed in the other, as
with the shared objects in the source. `pool` models `availableResources`.
Resource ids are the numeric part of the source's `analyst_1` … `tester_9`.

In two places the model follows the code where a reader might expect otherwise:

- a test-mode drop sets the story to any visible column, including moving a
  deployed story back, so "deployed" is terminal only in normal mode;
- the WIP counts are the number of board stories in each column, which is
  what `renderAllStories` (game.js:136-175) draws and the drop handler counts.

## Model

| member | source | states |
|---|---|---|
| `Kanban.PredefinedStoriesIds` | game.js:53-74 | the catalog has 20 stories with ids 1..20, so the ids are distinct |
| `Kanban.StaffCount` | game.js:364-374 | the initial staff holds each resource `Resource(n, kind)` with n in 1..9 and the kind of its block of three exactly once, and nothing else |
| `Kanban.StaffUpToAt` | game.js:364-374 | the first n staff resources are numbered 1..n in order, each with the kind of its block of three |
| `ResourcePool.FindById` | game.js:421-423 | `getResourceById` finds an entry with the id exactly when the list has one |
| `ResourcePool.WithoutIdCount` | game.js:429-431 | `removeResource` drops every entry with the id and keeps the others with their multiplicity |
| `ResourcePool.WithResource` | game.js:438-442 | `addResource` leaves the id present, adds the resource only if its id was absent, and keeps ids distinct |
| `ResourcePool.WithResourceIdempotent` | game.js:438-442 | adding the same resource twice is the same as adding it once |
| `ResourcePool.AddAllFresh` | game.js:1035-1042 | adding resources with fresh, distinct ids one by one appends them in order |
| `StoryRegistry.GenerateAllStories` | game.js:76-89 | one story per data entry, in order, with the entry's id, price and three efforts, hidden, with no resources and zero prioritized days |
| `StoryRegistry.FindStory` | game.js:120-122 | `getStoryById` finds a revealed story with the id, and finds none exactly when no board story has it |
| `StoryRegistry.FindStoryRevealed` | game.js:120-122 | in a consistent registry every revealed story is found by its own id |
| `StoryRegistry.InitStories` | game.js:38-46 | the first min(5, n) stories are revealed into the backlog in catalog order, the rest stay hidden, and the registry is consistent |
| `StoryRegistry.ToRevealFacts` | game.js:96-113 | the refill reveals hidden stories that are not on the board, in increasing catalog order, as many as the backlog lacks or as remain |
| `StoryRegistry.RevealConsistent` | game.js:104-110 | revealing distinct, increasing positions that are not on the board, and appending them to it, keeps the registry consistent |
| `StoryRegistry.ReplenishConsistent` | game.js:96-113 | the refill keeps the registry consistent and moves no resource |
| `StoryRegistry.ReplenishFillsBacklog` | game.js:96-113 | a short backlog is topped up to min(5, backlog + hidden) |
| `StoryRegistry.ReplenishFullBacklog` | game.js:97-101 | with five or more stories in the backlog the refill changes nothing |
| `StoryRegistry.ReplenishInCatalogOrder` | game.js:104-110 | every hidden story before a revealed one is revealed too |
| `StoryRegistry.Deployed` | game.js:128-130 | `getDeployedStories` lists as many stories as the board has deployed, all deployed |
| `StoryRegistry.DeployedMembers` | game.js:128-130 | a story is in the deployed list exactly when it is a deployed story of the board |
| `StoryRegistry.DeployedDistinct` | game.js:128-130 | on a board with distinct positions and distinct story ids, no story is listed twice |
| `StoryRegistry.DeployedSumGrows` | game.js:1046-1050 | when every deployed story stays deployed at its price, the summed prices cannot drop |
| `StoryRegistry.CountStageUpdate` | game.js:571-576 | changing one board story moves it from its old column's count to its new column's |
| `Holdings.Counted` | game.js:754-770 | under conservation a resource is held at most once overall, and exactly once when it is staff |
| `Holdings.PoolDistinct` | game.js:438-442 | the waiting area never lists two resources with the same id |
| `Holdings.StoriesDisjoint` | game.js:754-770 | no resource is on two stories |
| `Holdings.PoolStoryDisjoint` | game.js:754-770 | no resource is both waiting and on a story |
| `Holdings.Locate` | game.js:736-748 | the dragged resource is found in the waiting area first, else on a board story listing it, and is missing exactly when neither holds its id |
| `Holdings.LocateExactlyOnePlace` | game.js:736-748 | every staff resource is found, and the place it is found in is the only place it is |
| `MoveRules.TransitionTable` | game.js:616-661 | the transition table allows exactly a move one column to the right from a visible column whose target gate is open |
| `MoveRules.MoveTouchesOnlyStory` | game.js:552-566 | test mode accepts any drop of a board story; an accepted drop changes only that story's column, and resets its day count only on the normal-mode move out of the backlog |
| `MoveRules.AcceptedMoveFollowsTable` | game.js:569-661 | an accepted normal-mode move passed the capacity check and follows the table |
| `MoveRules.AnalysisWaitsADay` | game.js:623-627 | a prioritized story with no day spent there cannot start analysis |
| `MoveRules.MovePreservesWip` | game.js:579-613 | an accepted normal-mode move keeps the board within the WIP limits 3 / 4 / 3 / 3 |
| `MoveRules.MoveKeepsInvariants` | game.js:528-663 | an accepted move keeps the registry consistent and conservation |
| `MoveRules.StatusUpdateKeeps` | game.js:655-659 | setting a board story to another visible column, with its id and resources unchanged, keeps the registry consistent and conservation |
| `Allocation.AllocateGranted` | game.js:744-770 | a granted drop needs the kind to match; it puts the resource on the target exactly once, takes it out of every other place, and moves nothing else |
| `Allocation.AllocateKeepsInvariants` | game.js:744-790 | a granted drop keeps the registry consistent and conservation |
| `Allocation.AllocateMismatchRefused` | game.js:751-761 | a resource whose kind does not match the target's stage is refused |
| `Allocation.AllocateHeld` | game.js:763-776 | a matching drop on the story that already holds the resource changes nothing |
| `Allocation.AllocateIdempotent` | game.js:763-776 | dropping a resource again on the story it was just granted to changes nothing |
| `Allocation.ReturnFromPoolChangesNothing` | game.js:839-847 | dropping a waiting resource on the waiting area changes nothing |
| `Allocation.ReturnFromStory` | game.js:824-851 | returning a resource held by a story puts it in the pool exactly once, takes it off every story, and keeps the invariants |
| `Allocation.TakeFromHolder` | game.js:824-836 | taking a resource off the one story holding it removes every copy of it from the stories and changes nothing else about them |
| `Allocation.WithResourceOne` | game.js:438-442 | adding a resource whose id is absent puts exactly one copy of it in the waiting area |
| `Allocation.ReturnIdempotent` | game.js:846-851 | returning the same resource twice is returning it once |
| `RoundRules.WorkAllTotal` | game.js:991-1009 | applying the draws one at a time, each floored at 0, leaves the effort that the total delivered leaves in one step |
| `RoundRules.DeliveredBounds` | game.js:19-23 | n matching resources deliver between 4n and 8n |
| `RoundRules.RoundStoryEffect` | game.js:955-1025 | one story's round: it moves exactly when in progress and when test mode is on or delivery covers the phase effort; only the phase effort drops; a prioritized story gains a day in normal mode |
| `RoundRules.AutoCompleteEffect` | game.js:955-979 | in test mode an in-progress story has its phase effort set to 0 and moves one column right; any other story stays as it was |
| `RoundRules.NormalRoundEffect` | game.js:982-1025 | in normal mode a story moves exactly when in progress and delivery covers the phase effort, which then drops to the floored remainder; a prioritized story gains a day |
| `RoundRules.AdvanceAfterWork` | game.js:1012-1024 | after work leaves a phase effort `e`, the story advances one column exactly when it is in progress and `e` is 0, and nothing else about it changes |
| `RoundRules.EnoughHandsFinish` | game.js:991-1025 | a phase effort of at most 4n with n matching resources is finished in the round |
| `RoundRules.TooFewHandsStay` | game.js:991-1025 | a phase effort above 8n cannot be finished in the round |
| `RoundRules.MismatchWasted` | game.js:1008-1009 | resources of the wrong kind change no effort |
| `RoundRules.PassStories` | game.js:982-1031 | the pass gives each board story its one-story result and leaves every other story alone |
| `RoundRules.PassUntouched` | game.js:982-1031 | the pass reaches each board story before changing it |
| `RoundRules.PassMovedWithin` | game.js:1026-1029 | every story marked for reclaim after the first i stories is one of those i |
| `RoundRules.PassMoved` | game.js:1026-1029 | the stories marked for reclaim are exactly the board stories whose round moved them |
| `RoundRules.ReclaimFacts` | game.js:1035-1042 | the reclaim clears exactly the moved stories' lists, changes nothing else about stories, and keeps conservation |
| `RoundRules.ReclaimShape` | game.js:1035-1042 | the reclaim clears the moved stories' lists and changes nothing else about any story |
| `RoundRules.ReclaimConserved` | game.js:1035-1042 | the reclaim keeps conservation |
| `RoundRules.RoundKeepsInvariants` | game.js:946-1056 | a round keeps the registry consistent and conservation |
| `RoundRules.RoundOnActive` | game.js:955-1042 | after a round a board story holds its one-story result, with no resources if it moved |
| `RoundRules.RoundOffBoard` | game.js:1055 | a round leaves a story off the board as it was, or reveals it into the backlog, and only appends to the board |
| `RoundRules.RoundReclaimsToPool` | game.js:1035-1042 | every resource of a story that moved is waiting after the round |
| `RoundRules.RoundProfit` | game.js:1046-1050 | the round's profit is the summed price of the stories deployed after it, and at least that of the stories deployed before it |
| `RoundRules.RoundGainOnBoard` | game.js:1046-1055 | the gain is the deployed price sum over the board, and the stories revealed by the refill add no deployed story |
| `RoundRules.RefillDeployed` | game.js:1055 | appending backlog stories to the board, while keeping its stories, changes no deployed list |
| `RoundRules.RoundPreservesWip` | game.js:1012-1025 | a round keeps the board within the WIP limits |
| `RoundRules.RoundStaysInArea` | game.js:955-1025 | a round moves a story only within its work area: a story that ends up prioritized, in analysis, in development or testing was already there |
| `RoundRules.RoundOpensGate` | game.js:986-988 | a normal round gives a prioritized story a day, which opens its move to analysis |
| `Game.CreateResources` | game.js:364-374 | `ResourceManager.init` creates exactly the staff: three of each kind, in kind order, numbered 1..9 |
| `Game.NewGame` | game.js:38-46 | the managers' start state is consistent and conserving, with the first five stories in the backlog and the nine staff waiting in id order |
| `Game.PredefinedGame` | game.js:38-46 | the start state on the 20 predefined stories: consistent and conserving, stories 1..5 in the backlog, and the nine staff waiting in id order |
| `Game.RevealFirst` | game.js:104-110 | the reveal loop reveals the first min(needed, hidden) hidden positions and appends them to the board |
| `Game.RevealHidden` | game.js:96-113 | the refill loop computes `Replenished` |
| `Game.ProcessStory` | game.js:955-1031 | the pass body with its loop over allocated resources computes `RoundStory` |
| `Game.DeployedProfit` | game.js:1046-1050 | the profit loop sums the prices of `getDeployedStories` |
| `Game.Board.constructor` | game.js:880-896 | the game starts on day 1 with no profit, test mode off, the first five stories in the backlog and the nine staff waiting in id order |
| `Game.Board.RemoveResource` | game.js:429-431 | the pool becomes `WithoutId` of the old pool; nothing else changes |
| `Game.Board.AddResource` | game.js:438-442 | the pool becomes `WithResource` of the old pool; nothing else changes |
| `Game.Board.AddAllResources` | game.js:1036-1040 | returning a list of resources one by one makes the pool `AddAll` of the old pool; nothing else changes |
| `Game.Board.ReplenishBacklog` | game.js:96-113 | the refill computes `Replenished`, moves no resource, and keeps `Valid()` when it held before |
| `Game.Board.MoveStory` | game.js:528-663 | a card drop is accepted exactly as `Move` says, changes only the catalog, and keeps `Valid()` |
| `Game.Board.AllocateResource` | game.js:719-790 | a resource drop on a card is granted exactly as `Allocate` says, and keeps `Valid()` |
| `Game.Board.ReturnResourceToPool` | game.js:816-856 | a resource drop on the waiting area computes `ReturnToPool` and keeps `Valid()` |
| `Game.Board.RunPass` | game.js:955-1031 | the pass over the board computes `Pass` |
| `Game.Board.ReclaimFrom` | game.js:1035-1042 | the reclaim loop computes `Reclaim` |
| `Game.Board.CompleteRound` | game.js:946-1060 | nothing once the last day is reached; otherwise the state becomes `Round`'s, the day advances by 1, the profit grows by the round's gain, and `Valid()` holds |
| `Game.Board.ToggleTestMode` | game.js:927-928 | flips test mode and nothing else |

## Left out

- Rendering, the DOM and drag-and-drop plumbing (`render*`, `dataTransfer`, CSS classes, the resource `element` field, `DragAndDropManager.init`, `updateStatsDisplay`) are not modelled: they only display the state.
- `Math.random` in `getRandomInt(4, 8)` is floating-point randomness. The round takes the draws as an input, one per allocated resource of each board story. The bounds lemmas assume the draws lie in [4, 8]. `Round` and `CompleteRound` accept any natural-number draws.
- Console logging, `originalEfforts` (used only for display), `nextStoryId`, and the stories' descriptions are left out.
- `GameManager.init` is modelled only for its calls to the two managers' `init`. The event wiring, and the game-over display at 35 days, are left out.
- Identifiers: resource ids are the numbers 1..9 rather than strings. The dragged resource's kind is taken from the resource itself rather than from the drag data.
- The origin of a dragged resource is derived from the state: the waiting area if it is there, else the first board story listing it. The source reads the origin story id from the drag data, which the rendering keeps equal to this.
- Game.Board.MoveStory: the drop target is one of the eight visible columns, so `target != HiddenBacklog` is required.
- A column's count is the number of board stories with that status, which is what the rendered column holds when the drop handler counts its cards.
