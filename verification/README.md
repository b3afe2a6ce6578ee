# Voting session flow

A model of the session state machine in a small browser voting front end. The voter
identifies, then picks the elections to vote in on `/selecionar-eleicoes`. On `/votar` the
voter gets one ballot per selected election, and the flow ends on `/confirmacao`. Progress
is kept in the browser's local storage under three keys: `voter`, `selectedElections` and
`currentElectionIndex`. Every confirmation hands a vote record to the vote store.

## Layout

- `wrappers.dfy` (`Wrappers`): `Option`.
- `seqs.dfy` (`Seqs`): an order-preserving `Filter` (JavaScript's `Array.prototype.filter`),
  the subsequence relation `Subseq`, duplicate freedom `NoDup`, and their lemmas.
- `domain.dfy` (`Domain`): voters, elections, slates ("chapas") and vote records. It also
  holds the decoded local-storage entries (`Entry`, `Store`), the routes, and
  `SessionState`. `SessionState` is everything the pages and the browser hold: the store,
  the vote store, the last navigation, and the mounted page's React state.
- `select_elections.dfy` (`SelectElections`): the selection page. It has the pure `Toggle`
  and `Available`, and its transitions as functions on `SessionState`: mount, toggle,
  commit, and the "nothing left" exit.
- `ballot.dfy` (`Ballot`): the ballot page. It has `Find` and `Resolve` against the
  catalogue, and the mount, slate choice and confirm transitions. `RunBallot` is a whole
  pass through the ballot, with its completion lemma.
- `flow.dfy` (`Flow`): properties that span both pages. These cover what the selector
  hands the ballot page through the store, and what a completed ballot means for the next
  selection.
- `session.dfy` (`Pages`): class `Session`. Its fields are updated in place by one method
  per event handler. Each method is proved to leave `State()` equal to its transition
  function applied to the old state. Client methods replay scenarios, one step each:
  - one voter is offered two elections, selects both and commits them;
  - the ballot page is opened on that commit;
  - the first and the last confirmation are made;
  - an election already voted in is not offered;
  - a missing selection sends the voter back to `/`.

Modelling choices:

- Local storage is a map from key to an already-decoded value. `WellTyped`, the class
  invariant `Session.Valid()`, says that each session key holds a value of its own kind.
- Mounting a page starts from fresh React state for that page and then runs its effect.
- Navigation is the `route` field.
- The two pages each keep their own `voter` React state. The model holds both in the one
  `voter` field, which either page's mount resets before filling it.
- The active-election list and the full catalogue are parameters. Where a lemma needs the
  two to agree (`Flow.StartVotingThenMountBallot`, `Flow.SelectedIdsKnown`), it requires
  every active election to be a catalogue record. The storage module that would guarantee
  this is not part of this model.
- "Has this cpf voted in this election" is a function parameter. `Flow.VotedIn` derives
  it from the vote records.
- `addVote` appends to `votes`.
- The confirmation timestamp is a string parameter.
- A handler bound only to rendered elements is modelled with a `requires` for that
  rendering condition:
  - an election card exists only for a listed election;
  - the exit button exists only when nothing is listed;
  - a slate button exists only for a slate of the election on screen.

Behaviour of the code that the model keeps on purpose:

- The selection is an ordered list, not a set. Toggling twice restores the same set of ids.
  It restores the same sequence only when the id was absent, or occurred once and last
  (`ToggleTwiceIdentity`).
- A missing cursor key is not an error: the cursor starts at 0.
- A stored cursor outside the ballot is not rejected at mount. Confirm then does nothing.
- The confirm guard uses JavaScript truthiness, so a chosen slate with the empty id counts
  as no choice.
- After the final confirmation the page state is not reset. The confirm guard still holds
  until the page is unmounted (`LastConfirmLeavesGuardArmed`).

## Model

| member | source | states |
|---|---|---|
| SelectElections.Without | app/selecionar-eleicoes/page.tsx:34 | the id no longer occurs; every other id keeps its multiplicity |
| SelectElections.Toggle | app/selecionar-eleicoes/page.tsx:32-36 | the toggled id is in the result exactly when it was not in the selection; every other id keeps its membership |
| SelectElections.ToggleAbsent | app/selecionar-eleicoes/page.tsx:34 | an absent id is appended at the end; the existing entries are unchanged and in order |
| SelectElections.TogglePresent | app/selecionar-eleicoes/page.tsx:34 | a present id loses every occurrence; the others keep their multiplicity and relative order |
| SelectElections.ToggleKeepsNoDup | app/selecionar-eleicoes/page.tsx:34 | a duplicate-free selection stays duplicate-free |
| SelectElections.ToggleTwiceSameSet | app/selecionar-eleicoes/page.tsx:34 | toggling the same id twice restores the same set of ids |
| SelectElections.ToggleTwiceIdentity | app/selecionar-eleicoes/page.tsx:34 | toggling twice restores the exact sequence iff the id was absent, or occurred once and last |
| SelectElections.ToggleTwiceAbsent | app/selecionar-eleicoes/page.tsx:34 | adding an absent id and toggling it again restores the selection exactly |
| SelectElections.ToggleTwicePresent | app/selecionar-eleicoes/page.tsx:34 | removing a present id and toggling it again moves it, once, to the end; that equals the original iff it occurred once and last |
| SelectElections.WithoutAbsent | app/selecionar-eleicoes/page.tsx:34 | filtering out an id that does not occur leaves the selection unchanged |
| SelectElections.WithoutAppend | app/selecionar-eleicoes/page.tsx:34 | filtering out an id drops a trailing occurrence of it |
| SelectElections.Available | app/selecionar-eleicoes/page.tsx:27-28 | an election is listed iff it is active and the voter has not voted in it |
| SelectElections.AvailableInOrder | app/selecionar-eleicoes/page.tsx:28 | the listed elections are a subsequence of the active list (catalogue order) |
| SelectElections.AvailableWhenNoneVoted | app/selecionar-eleicoes/page.tsx:28 | a voter with no votes in any active election is offered the whole active list |
| SelectElections.MountSelector | app/selecionar-eleicoes/page.tsx:17-30 | no stored voter: route `/`, no voter, nothing listed; otherwise the stored voter and their available elections; store and votes never written |
| SelectElections.ToggleElection | app/selecionar-eleicoes/page.tsx:32-36 | only the selection changes, and only the clicked id's membership flips |
| SelectElections.ToggleElectionKeepsValid | app/selecionar-eleicoes/page.tsx:32-36 | the selection stays a duplicate-free list of listed election ids |
| SelectElections.StartVoting | app/selecionar-eleicoes/page.tsx:38-44 | empty selection: nothing changes; otherwise the selection and cursor 0 are stored, every other key (voter included) is untouched, route `/votar` |
| SelectElections.ExitNoElections | app/selecionar-eleicoes/page.tsx:61-66 | the three session keys are gone, every other key is untouched, route `/` |
| Ballot.Find | app/votar/page.tsx:37 | no result iff no catalogue election has the id; otherwise the first election with that id |
| Ballot.Resolve | app/votar/page.tsx:34-38 | at most one election per stored id; each is the first catalogue match of a stored id |
| Ballot.ResolveIds | app/votar/page.tsx:36-38 | the resolved ids are exactly the stored ids present in the catalogue, in stored order |
| Ballot.ResolveKnownIds | app/votar/page.tsx:36-38 | when every stored id is in the catalogue, nothing is dropped |
| Ballot.MountBallot | app/votar/page.tsx:17-47 | missing voter, missing selection or empty resolution: route `/`, empty ballot; else ballot = resolution, cursor = stored index or 0; store and votes untouched |
| Ballot.ChooseSlate | app/votar/page.tsx:114 | the pending choice becomes the slate id; nothing else changes |
| Ballot.Confirm | app/votar/page.tsx:49-71 | every session key still holds a value of its own kind afterwards |
| Ballot.ConfirmIgnored | app/votar/page.tsx:50 | with no (or an empty) slate choice, a cursor off the ballot, or no voter, nothing changes: votes, cursor, store, route |
| Ballot.ConfirmRecordsOneVote | app/votar/page.tsx:52-59 | exactly one vote is appended, carrying the current election's id, the pending slate id and the voter's name and cpf |
| Ballot.ConfirmAdvances | app/votar/page.tsx:61-64 | before the last election: cursor + 1, choice cleared, new cursor stored, no other key and not the route changed |
| Ballot.ConfirmCompletes | app/votar/page.tsx:65-69 | at the last election: the three session keys removed, every other key unchanged, route `/confirmacao` |
| Ballot.ConfirmCursorBounds | app/votar/page.tsx:49-71 | the cursor never decreases and a cursor on the ballot stays on it; ballot and voter unchanged |
| Ballot.LastConfirmLeavesGuardArmed | app/votar/page.tsx:65-70 | after the final confirmation the guard still holds and would record the same vote again |
| Ballot.RunStep | app/votar/page.tsx:49-71 | one choose-and-confirm step appends that vote, leaves non-session keys alone, advances the cursor or finishes |
| Ballot.RunBallot | app/votar/page.tsx:49-71 | a run of choices never changes the ballot or the voter |
| Ballot.RunBallotCompletes | app/votar/page.tsx:49-71 | confirming one slate per remaining election appends one vote per election in ballot order, removes the session keys and ends on `/confirmacao` |
| Flow.SelectedIdsKnown | app/selecionar-eleicoes/page.tsx:32-36 | every selected id names a catalogue election when the listed elections come from the catalogue |
| Flow.StartVotingThenMountBallot | app/votar/page.tsx:26-46 | after a commit, the ballot page shows exactly the selected elections, in selection order, from cursor 0, for the same voter |
| Flow.VotedIn | app/selecionar-eleicoes/page.tsx:28 | a vote record for (cpf, election) makes "has voted" true |
| Flow.CompletedBallotRecorded | app/votar/page.tsx:52-59 | after a completed ballot, the vote records answer "has voted" for that voter in every election that was ahead of the cursor |
| Flow.CompletedBallotNotOfferedAgain | app/selecionar-eleicoes/page.tsx:27-29 | after a completed ballot, no active election whose id is one of the ballot's ids is offered again to that voter |
| Pages.Session.constructor | app/selecionar-eleicoes/page.tsx:13-15 | a browser with the given storage and votes, no page state yet |
| Pages.Session.MountSelector | app/selecionar-eleicoes/page.tsx:17-30 | the session afterwards is `SelectElections.MountSelector` of the session before |
| Pages.Session.ToggleElection | app/selecionar-eleicoes/page.tsx:32-36 | the session afterwards is `SelectElections.ToggleElection` of the session before |
| Pages.Session.StartVoting | app/selecionar-eleicoes/page.tsx:38-44 | the session afterwards is `SelectElections.StartVoting` of the session before |
| Pages.Session.ExitNoElections | app/selecionar-eleicoes/page.tsx:61-66 | the session afterwards is `SelectElections.ExitNoElections` of the session before |
| Pages.Session.LoadBallot | app/votar/page.tsx:17-47 | the session afterwards is `Ballot.MountBallot` of the session before |
| Pages.Session.ChooseSlate | app/votar/page.tsx:114 | the session afterwards is `Ballot.ChooseSlate` of the session before |
| Pages.Session.Confirm | app/votar/page.tsx:49-71 | the session afterwards is `Ballot.Confirm` of the session before |

## Left out

- Rendering is not modelled: JSX, styling, and the `Header`, `Footer` and `Button` components. Neither are the buttons' `disabled` attributes, since the handlers' own guards are modelled.
- The progress text and bar (app/votar/page.tsx:87-104) are not modelled. They are display values computed with floating-point division and `Math.round`.
- The storage module that supplies the election lists, the "has voted" query and `addVote` is not part of this model. The lists and the query are parameters, and `addVote` is an append to `votes`.
- `JSON.parse`, `JSON.stringify` and `Number.parseInt` are not modelled: stored values are already decoded. Malformed stored text is excluded by `WellTyped`.
- `new Date().toISOString()` is not modelled. The timestamp is a parameter.
- `router.push`, `useEffect` scheduling and the batching of React state updates are not modelled. Navigation is a field assignment, and a state setter is a direct assignment.
- The page is not unmounted when it navigates away. A handler can still be applied after navigation, and the model does not say when React would stop delivering events.
- Concurrent use of local storage from several tabs is not modelled. The code does not handle it.
- The render-time failure when a stored cursor is outside the ballot (app/votar/page.tsx:77 reads an undefined election, and app/votar/page.tsx:107 and :111 read its `title` and `chapas`) is not modelled. It happens in rendering, and `Confirm` already guards that case.
