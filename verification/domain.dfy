/** The entities the two pages share: the voter, the election catalogue, vote records,
    the browser's key-value store and the navigation target. */
module Domain {
  import opened Wrappers

  /** The identified voter, as stored under the `voter` key; `cpf` is the voter's unique key. */
  datatype Voter = Voter(name: string, cpf: string)

  /** A candidate slate ("chapa") of one election. */
  datatype Slate = Slate(id: string, name: string)

  datatype Election = Election(id: string, title: string, description: string, chapas: seq<Slate>)

  /** One record handed to the vote store's `addVote`; `votedAt` is the timestamp of the confirmation. */
  datatype Vote = Vote(electionId: string, slateId: string, voterName: string, voterCpf: string, votedAt: string)

  /** The path of the last `router.push`: `/`, `/selecionar-eleicoes`, `/votar`, `/confirmacao`. */
  datatype Route = Identification | Selection | Voting | Confirmation

  /** A decoded value of the browser's local storage: the voter record, a list of
      election ids, or an index. */
  datatype Entry = VoterEntry(voter: Voter) | IdsEntry(ids: seq<string>) | IndexEntry(index: nat)

  type Store = map<string, Entry>

  /** Whether the vote store already holds a vote of the voter with this cpf in the election with this id. */
  type HasVoted = (string, string) -> bool

  const VOTER_KEY := "voter"
  const SELECTED_KEY := "selectedElections"
  const INDEX_KEY := "currentElectionIndex"

  /** The three keys that make up a voting session. */
  const SESSION_KEYS: set<string> := {VOTER_KEY, SELECTED_KEY, INDEX_KEY}

  /** Each session key, when present, holds a value of its own kind. */
  predicate WellTyped(store: Store)
  {
    && (VOTER_KEY in store ==> store[VOTER_KEY].VoterEntry?)
    && (SELECTED_KEY in store ==> store[SELECTED_KEY].IdsEntry?)
    && (INDEX_KEY in store ==> store[INDEX_KEY].IndexEntry?)
  }

  function StoredVoter(store: Store): (r: Option<Voter>)
    requires WellTyped(store)
    ensures r.None? <==> VOTER_KEY !in store
  {
    if VOTER_KEY in store then Some(store[VOTER_KEY].voter) else None
  }

  function StoredSelection(store: Store): (r: Option<seq<string>>)
    requires WellTyped(store)
    ensures r.None? <==> SELECTED_KEY !in store
  {
    if SELECTED_KEY in store then Some(store[SELECTED_KEY].ids) else None
  }

  function StoredIndex(store: Store): (r: Option<nat>)
    requires WellTyped(store)
    ensures r.None? <==> INDEX_KEY !in store
  {
    if INDEX_KEY in store then Some(store[INDEX_KEY].index) else None
  }

  /** The ids of a list of elections, in order (`elections.map(e => e.id)`). */
  function ElectionIds(elections: seq<Election>): (r: seq<string>)
    ensures |r| == |elections|
    ensures forall i :: 0 <= i < |elections| ==> r[i] == elections[i].id
  {
    if elections == [] then [] else [elections[0].id] + ElectionIds(elections[1..])
  }

  /** Some slate of the list carries this id (a button is rendered per slate). */
  predicate HasSlate(chapas: seq<Slate>, id: string)
  {
    exists c :: c in chapas && c.id == id
  }

  /** Everything the two pages and the browser hold: the local storage, the vote store,
      the last navigation, and the React state of the mounted page (`voter`, the
      selector's `available` elections and `selection`, the ballot's elections, cursor
      and pending slate choice). */
  datatype SessionState = SessionState(
    store: Store,
    votes: seq<Vote>,
    route: Route,
    voter: Option<Voter>,
    available: seq<Election>,
    selection: seq<string>,
    ballot: seq<Election>,
    cursor: nat,
    pending: Option<string>)
}
