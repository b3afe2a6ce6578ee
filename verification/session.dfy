/** The browser session as the two pages change it: the local storage, the vote store, the
    router and the mounted page's React state are fields updated in place by the event
    handlers. Each handler is proved to leave the session in the state its transition
    function describes. */
module Pages {
  import opened Wrappers
  import opened Domain
  import SelectElections
  import Ballot

  class Session {
    var store: Store
    var votes: seq<Vote>
    var route: Route
    var voter: Option<Voter>
    var available: seq<Election>
    var selection: seq<string>
    var ballot: seq<Election>
    var cursor: nat
    var pending: Option<string>

    /** The session keys hold values of their own kind. */
    ghost predicate Valid()
      reads this
    {
      WellTyped(store)
    }

    function State(): SessionState
      reads this
    {
      SessionState(store, votes, route, voter, available, selection, ballot, cursor, pending)
    }

    /** A browser with this local storage and vote store, before any page is mounted. */
    constructor (store: Store, votes: seq<Vote>)
      requires WellTyped(store)
      ensures Valid()
      ensures State() == SessionState(store, votes, Identification, None, [], [], [], 0, None)
    {
      this.store := store;
      this.votes := votes;
      route := Identification;
      voter, available, selection := None, [], [];
      ballot, cursor, pending := [], 0, None;
    }

    /** Mounting `/selecionar-eleicoes`. */
    method MountSelector(active: seq<Election>, hasVoted: HasVoted)
      requires Valid()
      modifies this
      ensures Valid()
      ensures State() == SelectElections.MountSelector(old(State()), active, hasVoted)
    {
      voter, available, selection := None, [], [];
      if VOTER_KEY !in store {
        route := Identification;
        return;
      }
      var parsed := store[VOTER_KEY].voter;
      voter := Some(parsed);
      available := SelectElections.Available(active, hasVoted, parsed.cpf);
    }

    /** `handleToggleElection`. */
    method ToggleElection(id: string)
      requires Valid() && id in ElectionIds(available)
      modifies this`selection
      ensures Valid()
      ensures State() == SelectElections.ToggleElection(old(State()), id)
    {
      selection := SelectElections.Toggle(selection, id);
    }

    /** `handleStartVoting`. */
    method StartVoting()
      requires Valid()
      modifies this
      ensures Valid()
      ensures State() == SelectElections.StartVoting(old(State()))
    {
      if selection == [] {
        return;
      }
      store := store[SELECTED_KEY := IdsEntry(selection)];
      store := store[INDEX_KEY := IndexEntry(0)];
      route := Voting;
    }

    /** The "back to identification" button shown when no election is left. */
    method ExitNoElections()
      requires Valid() && available == []
      modifies this
      ensures Valid()
      ensures State() == SelectElections.ExitNoElections(old(State()))
    {
      store := store - {VOTER_KEY};
      store := store - {SELECTED_KEY};
      store := store - {INDEX_KEY};
      route := Identification;
      assert store == old(store) - SESSION_KEYS;
    }

    /** Mounting `/votar`. */
    method LoadBallot(catalogue: seq<Election>)
      requires Valid()
      modifies this
      ensures Valid()
      ensures State() == Ballot.MountBallot(old(State()), catalogue)
    {
      voter, ballot, cursor, pending := None, [], 0, None;
      if VOTER_KEY !in store {
        route := Identification;
        return;
      }
      voter := Some(store[VOTER_KEY].voter);
      if SELECTED_KEY !in store {
        route := Identification;
        return;
      }
      var ids := store[SELECTED_KEY].ids;
      var resolved := Ballot.Resolve(ids, catalogue);
      if resolved == [] {
        route := Identification;
        return;
      }
      ballot := resolved;
      cursor := if INDEX_KEY in store then store[INDEX_KEY].index else 0;
    }

    /** A slate button of the election on screen. */
    method ChooseSlate(slateId: string)
      requires Valid() && cursor < |ballot| && HasSlate(ballot[cursor].chapas, slateId)
      modifies this`pending
      ensures Valid()
      ensures State() == Ballot.ChooseSlate(old(State()), slateId)
    {
      pending := Some(slateId);
    }

    /** `handleConfirm`, with the confirmation time as a parameter. */
    method Confirm(votedAt: string)
      requires Valid()
      modifies this
      ensures Valid()
      ensures State() == Ballot.Confirm(old(State()), votedAt)
    {
      if pending.None? || pending.value == "" || cursor >= |ballot| || voter.None? {
        return;
      }
      var current := ballot[cursor];
      votes := votes + [Vote(current.id, pending.value, voter.value.name, voter.value.cpf, votedAt)];
      if cursor < |ballot| - 1 {
        cursor := cursor + 1;
        pending := None;
        store := store[INDEX_KEY := IndexEntry(cursor)];
      } else {
        store := store - {VOTER_KEY};
        store := store - {SELECTED_KEY};
        store := store - {INDEX_KEY};
        assert store == old(store) - SESSION_KEYS;
        route := Confirmation;
      }
    }
  }

  const ANA := Voter("Ana", "111")
  const E1 := Election("e1", "Election 1", "", [Slate("s1", "Slate 1")])
  const E2 := Election("e2", "Election 2", "", [Slate("s2", "Slate 2")])

  /** The store once Ana has committed elections e1 and e2, with the cursor at `index`. */
  function Committed(index: nat): (store: Store)
    ensures WellTyped(store)
  {
    map[VOTER_KEY := VoterEntry(ANA), SELECTED_KEY := IdsEntry(["e1", "e2"]), INDEX_KEY := IndexEntry(index)]
  }

  /** Ana, who has voted nowhere, is offered both elections. */
  method ListTwoElectionsScenario()
  {
    var session := new Session(map[VOTER_KEY := VoterEntry(ANA)], []);
    var nobodyVoted: HasVoted := (cpf, id) => false;
    SelectElections.AvailableWhenNoneVoted([E1, E2], nobodyVoted, "111");
    session.MountSelector([E1, E2], nobodyVoted);
    assert session.available == [E1, E2] && session.voter == Some(ANA);
  }

  /** With both elections listed, Ana selects both, in that order. */
  method SelectTwoElectionsScenario(session: Session)
    requires session.Valid() && session.available == [E1, E2] && session.selection == []
    modifies session
  {
    assert ElectionIds(session.available) == ["e1", "e2"];
    session.ToggleElection("e1");
    session.ToggleElection("e2");
    assert session.selection == ["e1", "e2"];
  }

  /** Committing that selection stores it with a cursor of 0 and moves on to `/votar`. */
  method CommitScenario(session: Session)
    requires session.Valid() && session.store == map[VOTER_KEY := VoterEntry(ANA)]
    requires session.selection == ["e1", "e2"]
    modifies session
  {
    session.StartVoting();
    assert session.store == Committed(0) && session.route == Voting;
  }

  /** Opening `/votar` after the commit shows e1 then e2, from the first. */
  method LoadScenario()
  {
    var session := new Session(Committed(0), []);
    assert Ballot.Resolve(["e1", "e2"], [E1, E2]) == [E1, E2] by {
      assert Ballot.Find([E1, E2], "e1") == Some(E1);
      assert Ballot.Find([E1, E2], "e2") == Some(E2) by { assert [E1, E2][1..] == [E2]; }
      assert ["e1", "e2"][1..] == ["e2"];
    }
    session.LoadBallot([E1, E2]);
    assert session.ballot == [E1, E2] && session.cursor == 0 && session.voter == Some(ANA);
  }

  /** Confirming slate s1 in e1 records that vote, stores a cursor of 1 and shows e2. */
  method FirstConfirmScenario(session: Session)
    requires session.Valid() && session.store == Committed(0) && session.votes == []
    requires session.ballot == [E1, E2] && session.cursor == 0 && session.voter == Some(ANA)
    modifies session
  {
    assert HasSlate(E1.chapas, "s1") by { assert E1.chapas[0] in E1.chapas; }
    session.ChooseSlate("s1");
    session.Confirm("t1");
    assert session.votes == [Vote("e1", "s1", "Ana", "111", "t1")];
    assert session.cursor == 1 && session.pending == None;
    assert session.store == Committed(1);
  }

  /** Confirming slate s2 in e2, the last election, records that vote, removes the session
      keys and ends on `/confirmacao`. */
  method LastConfirmScenario(session: Session)
    requires session.Valid() && session.store == Committed(1)
    requires session.votes == [Vote("e1", "s1", "Ana", "111", "t1")]
    requires session.ballot == [E1, E2] && session.cursor == 1 && session.voter == Some(ANA)
    modifies session
  {
    assert HasSlate(E2.chapas, "s2") by { assert E2.chapas[0] in E2.chapas; }
    session.ChooseSlate("s2");
    session.Confirm("t2");
    assert session.votes == [Vote("e1", "s1", "Ana", "111", "t1"), Vote("e2", "s2", "Ana", "111", "t2")];
    assert session.store == map[] && session.route == Confirmation;
  }

  /** A voter who already voted in the first election is offered only the second. */
  method AlreadyVotedScenario()
  {
    var session := new Session(map[VOTER_KEY := VoterEntry(ANA)], []);
    var votedInE1: HasVoted := (cpf, id) => cpf == "111" && id == "e1";
    assert SelectElections.Available([E1, E2], votedInE1, "111") == [E2] by {
      var r := SelectElections.Available([E1, E2], votedInE1, "111");
      assert [E1, E2][1..] == [E2] && [E2][1..] == [];
      assert E1 !in r && E2 in r;
      assert multiset(r)[E2] == 1;
    }
    session.MountSelector([E1, E2], votedInE1);
    assert session.available == [E2];
  }

  /** Opening the ballot page with no stored selection sends the voter back to `/` with
      nothing on the ballot. */
  method MissingSelectionScenario()
  {
    var session := new Session(map[VOTER_KEY := VoterEntry(Voter("Ana", "111"))], []);
    session.LoadBallot([Election("e1", "Election 1", "", [])]);
    assert session.route == Identification && session.ballot == [];
  }
}
