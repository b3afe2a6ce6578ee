/** The ballot page (`/votar`): the stored selection resolved against the catalogue,
    one election at a time, a vote recorded on every confirmation. */
module Ballot {
  import opened Wrappers
  import opened Seqs
  import opened Domain

  /** Position `k` holds the first election of the catalogue with this id. */
  predicate FirstWithId(catalogue: seq<Election>, id: string, k: int)
  {
    && 0 <= k < |catalogue| && catalogue[k].id == id
    && forall j :: 0 <= j < k ==> catalogue[j].id != id
  }

  /** Past a head with another id, a first match in the tail is a first match of the whole. */
  lemma FirstWithIdInTail(catalogue: seq<Election>, id: string)
    requires catalogue != [] && catalogue[0].id != id
    ensures forall k :: FirstWithId(catalogue[1..], id, k) ==>
      FirstWithId(catalogue, id, k + 1) && catalogue[k + 1] == catalogue[1..][k]
  {
  }

  /** The first election of the catalogue with this id (`allElections.find(e => e.id === id)`). */
  function Find(catalogue: seq<Election>, id: string): (r: Option<Election>)
    ensures r.None? <==> id !in ElectionIds(catalogue)
    ensures r.Some? ==> exists k :: FirstWithId(catalogue, id, k) && catalogue[k] == r.value
  {
    if catalogue == [] then None
    else if catalogue[0].id == id then
      assert FirstWithId(catalogue, id, 0);
      assert ElectionIds(catalogue)[0] == id;
      Some(catalogue[0])
    else
      var r := Find(catalogue[1..], id);
      assert ElectionIds(catalogue) == [catalogue[0].id] + ElectionIds(catalogue[1..]);
      FirstWithIdInTail(catalogue, id);
      r
  }

  /** The stored ids mapped to their elections, ids without an election dropped
      (`selectedIds.map(id => find(id)).filter(e => e !== undefined)`). */
  function Resolve(ids: seq<string>, catalogue: seq<Election>): (r: seq<Election>)
    ensures |r| <= |ids|
    ensures forall e :: e in r ==> e.id in ids && Find(catalogue, e.id) == Some(e)
  {
    if ids == [] then []
    else
      var rest := Resolve(ids[1..], catalogue);
      match Find(catalogue, ids[0])
      case Some(e) => [e] + rest
      case None => rest
  }

  /** Resolution keeps exactly the stored ids that name an election of the catalogue,
      in stored order. */
  lemma {:induction false} ResolveIds(ids: seq<string>, catalogue: seq<Election>)
    ensures ElectionIds(Resolve(ids, catalogue)) == Filter(ids, id => id in ElectionIds(catalogue))
  {
    if ids != [] {
      ResolveIds(ids[1..], catalogue);
      var rest := Resolve(ids[1..], catalogue);
      match Find(catalogue, ids[0])
      case Some(e) =>
        assert ElectionIds([e] + rest) == [e.id] + ElectionIds(rest);
      case None =>
    }
  }

  /** When every stored id names an election of the catalogue, nothing is dropped. */
  lemma ResolveKnownIds(ids: seq<string>, catalogue: seq<Election>)
    requires forall id :: id in ids ==> id in ElectionIds(catalogue)
    ensures ElectionIds(Resolve(ids, catalogue)) == ids
  {
    ResolveIds(ids, catalogue);
    FilterKeepsAll(ids, id => id in ElectionIds(catalogue));
  }

  /** Mounting the page: fresh page state, then the effect. A missing voter, a missing
      selection, or a selection of which no id resolves sends the page to `/` with an empty
      ballot; otherwise the ballot is the resolved list and the cursor starts at the stored
      index, or at 0 when no index is stored. Mounting never writes the store or the votes. */
  function MountBallot(s: SessionState, catalogue: seq<Election>): (t: SessionState)
    requires WellTyped(s.store)
    ensures t.store == s.store && t.votes == s.votes && t.pending == None
    ensures t.available == s.available && t.selection == s.selection
    ensures VOTER_KEY !in s.store ==> t.route == Identification && t.ballot == [] && t.cursor == 0 && t.voter == None
    ensures VOTER_KEY in s.store ==> t.voter == Some(s.store[VOTER_KEY].voter)
    ensures VOTER_KEY in s.store && SELECTED_KEY !in s.store ==>
      t.route == Identification && t.ballot == [] && t.cursor == 0
    ensures VOTER_KEY in s.store && SELECTED_KEY in s.store ==>
      var resolved := Resolve(s.store[SELECTED_KEY].ids, catalogue);
      && (resolved == [] ==> t.route == Identification && t.ballot == [] && t.cursor == 0)
      && (resolved != [] ==>
            && t.route == s.route && t.ballot == resolved
            && t.cursor == (if INDEX_KEY in s.store then s.store[INDEX_KEY].index else 0))
  {
    var mounted := s.(voter := None, ballot := [], cursor := 0, pending := None);
    match StoredVoter(s.store)
    case None => mounted.(route := Identification)
    case Some(v) =>
      var identified := mounted.(voter := Some(v));
      match StoredSelection(s.store)
      case None => identified.(route := Identification)
      case Some(ids) =>
        var resolved := Resolve(ids, catalogue);
        if resolved == [] then identified.(route := Identification)
        else
          var start := match StoredIndex(s.store) case Some(i) => i case None => 0;
          identified.(ballot := resolved, cursor := start)
  }

  /** A slate button of the election on screen: the choice is overwritten, nothing else changes. */
  function ChooseSlate(s: SessionState, slateId: string): (t: SessionState)
    requires s.cursor < |s.ballot| && HasSlate(s.ballot[s.cursor].chapas, slateId)
    ensures t.pending == Some(slateId)
    ensures t.(pending := s.pending) == s
  {
    s.(pending := Some(slateId))
  }

  /** The guard of `handleConfirm`: a slate is chosen (the empty id is falsy in JavaScript),
      the cursor names an election, and the voter is known. */
  predicate CanConfirm(s: SessionState)
  {
    s.pending.Some? && s.pending.value != "" && s.cursor < |s.ballot| && s.voter.Some?
  }

  /** The vote `handleConfirm` records when its guard holds. */
  function CurrentVote(s: SessionState, votedAt: string): Vote
    requires CanConfirm(s)
  {
    Vote(s.ballot[s.cursor].id, s.pending.value, s.voter.value.name, s.voter.value.cpf, votedAt)
  }

  /** `handleConfirm`: when the guard holds, record the vote for the election on screen, then
      either move on to the next election or end the session. */
  function Confirm(s: SessionState, votedAt: string): (t: SessionState)
    requires WellTyped(s.store)
    ensures WellTyped(t.store)
  {
    if !CanConfirm(s) then s
    else
      var votes := s.votes + [CurrentVote(s, votedAt)];
      if s.cursor < |s.ballot| - 1 then
        s.(votes := votes, cursor := s.cursor + 1, pending := None,
           store := s.store[INDEX_KEY := IndexEntry(s.cursor + 1)])
      else
        s.(votes := votes, store := s.store - SESSION_KEYS, route := Confirmation)
  }

  /** Without a choice, a cursor on the ballot or a voter, confirming changes nothing. */
  lemma ConfirmIgnored(s: SessionState, votedAt: string)
    requires WellTyped(s.store) && !CanConfirm(s)
    ensures Confirm(s, votedAt) == s
  {
  }

  /** A confirmation that passes the guard appends exactly one vote, carrying the election on
      screen, the chosen slate and the voter's name and cpf; the vote store is otherwise untouched. */
  lemma ConfirmRecordsOneVote(s: SessionState, votedAt: string)
    requires WellTyped(s.store) && CanConfirm(s)
    ensures Confirm(s, votedAt).votes == s.votes + [CurrentVote(s, votedAt)]
    ensures CurrentVote(s, votedAt).electionId == s.ballot[s.cursor].id
    ensures CurrentVote(s, votedAt).slateId == s.pending.value
    ensures CurrentVote(s, votedAt).voterName == s.voter.value.name
    ensures CurrentVote(s, votedAt).voterCpf == s.voter.value.cpf
  {
  }

  /** Before the last election, a confirmation moves the cursor on by exactly one, clears the
      choice and stores the new cursor; no other key and not the route change. */
  lemma ConfirmAdvances(s: SessionState, votedAt: string)
    requires WellTyped(s.store) && CanConfirm(s) && s.cursor < |s.ballot| - 1
    ensures var t := Confirm(s, votedAt);
      && t.cursor == s.cursor + 1 && t.pending == None
      && StoredIndex(t.store) == Some(s.cursor + 1)
      && (forall k :: k != INDEX_KEY ==>
            (k in t.store <==> k in s.store) && (k in s.store ==> t.store[k] == s.store[k]))
      && t.route == s.route
  {
  }

  /** At the last election, a confirmation removes the three session keys, leaves every other
      key as it was and goes to `/confirmacao`. */
  lemma ConfirmCompletes(s: SessionState, votedAt: string)
    requires WellTyped(s.store) && CanConfirm(s) && s.cursor == |s.ballot| - 1
    ensures var t := Confirm(s, votedAt);
      && VOTER_KEY !in t.store && SELECTED_KEY !in t.store && INDEX_KEY !in t.store
      && (forall k :: k !in SESSION_KEYS ==>
            (k in t.store <==> k in s.store) && (k in s.store ==> t.store[k] == s.store[k]))
      && t.route == Confirmation
  {
  }

  /** The cursor only moves forward, and a cursor on the ballot stays on it; the ballot, the
      voter and the selection page's state are never changed by a confirmation. */
  lemma ConfirmCursorBounds(s: SessionState, votedAt: string)
    requires WellTyped(s.store)
    ensures var t := Confirm(s, votedAt);
      && s.cursor <= t.cursor && (s.cursor < |s.ballot| ==> t.cursor < |t.ballot|)
      && t.ballot == s.ballot && t.voter == s.voter
      && t.available == s.available && t.selection == s.selection
  {
  }

  /** The final confirmation leaves the page state as it was: until the page is unmounted
      by the navigation, the confirm handler's guard still holds for the same election. */
  lemma LastConfirmLeavesGuardArmed(s: SessionState, votedAt: string)
    requires WellTyped(s.store) && CanConfirm(s) && s.cursor == |s.ballot| - 1
    ensures CanConfirm(Confirm(s, votedAt))
    ensures CurrentVote(Confirm(s, votedAt), votedAt) == CurrentVote(s, votedAt)
  {
  }

  /** One slate choice on the ballot, and the moment it was confirmed. */
  datatype Choice = Choice(slate: string, votedAt: string)

  /** The choice is a slate of this election, with an id JavaScript treats as a value. */
  predicate Fits(e: Election, c: Choice)
  {
    c.slate != "" && HasSlate(e.chapas, c.slate)
  }

  /** Choosing and confirming once per choice, from the election under the cursor on. */
  function RunBallot(s: SessionState, choices: seq<Choice>): (t: SessionState)
    requires WellTyped(s.store) && s.voter.Some?
    requires s.cursor + |choices| <= |s.ballot|
    requires forall i :: 0 <= i < |choices| ==> Fits(s.ballot[s.cursor + i], choices[i])
    ensures t.ballot == s.ballot && t.voter == s.voter
    decreases |choices|
  {
    if choices == [] then s
    else
      assert Fits(s.ballot[s.cursor], choices[0]);
      var next := Confirm(ChooseSlate(s, choices[0].slate), choices[0].votedAt);
      if choices[1..] == [] then next
      else
        assert forall i :: 0 <= i < |choices| - 1 ==> Fits(next.ballot[next.cursor + i], choices[1..][i]) by {
          forall i | 0 <= i < |choices| - 1 ensures Fits(next.ballot[next.cursor + i], choices[1..][i]) {
            assert Fits(s.ballot[s.cursor + (i + 1)], choices[i + 1]);
          }
        }
        RunBallot(next, choices[1..])
  }

  /** The votes a voter casts by giving the choices to the elections, in order. */
  function BallotVotes(elections: seq<Election>, choices: seq<Choice>, v: Voter): (r: seq<Vote>)
    requires |elections| == |choices|
    ensures |r| == |elections|
    ensures forall i :: 0 <= i < |r| ==>
      r[i] == Vote(elections[i].id, choices[i].slate, v.name, v.cpf, choices[i].votedAt)
  {
    if elections == [] then []
    else [Vote(elections[0].id, choices[0].slate, v.name, v.cpf, choices[0].votedAt)]
         + BallotVotes(elections[1..], choices[1..], v)
  }

  /** One choose-and-confirm step of a run: the vote it records and the state it leaves. */
  lemma RunStep(s: SessionState, c: Choice)
    requires WellTyped(s.store) && s.voter.Some? && s.cursor < |s.ballot| && Fits(s.ballot[s.cursor], c)
    ensures var next := Confirm(ChooseSlate(s, c.slate), c.votedAt);
      && WellTyped(next.store) && next.voter == s.voter && next.ballot == s.ballot
      && next.votes == s.votes
           + [Vote(s.ballot[s.cursor].id, c.slate, s.voter.value.name, s.voter.value.cpf, c.votedAt)]
      && next.store - SESSION_KEYS == s.store - SESSION_KEYS
      && (s.cursor < |s.ballot| - 1 ==> next.cursor == s.cursor + 1)
      && (s.cursor == |s.ballot| - 1 ==> next.route == Confirmation)
  {
    var next := Confirm(ChooseSlate(s, c.slate), c.votedAt);
    if s.cursor < |s.ballot| - 1 {
      assert next.store == s.store[INDEX_KEY := IndexEntry(s.cursor + 1)];
    } else {
      assert next.store == s.store - SESSION_KEYS;
    }
  }

  /** Choosing and confirming a slate for each remaining election appends one vote per
      election, in ballot order, then removes the session keys (leaving every other key as it
      was) and goes to `/confirmacao`. */
  lemma {:induction false} RunBallotCompletes(s: SessionState, choices: seq<Choice>)
    requires WellTyped(s.store) && s.voter.Some?
    requires choices != [] && s.cursor + |choices| == |s.ballot|
    requires forall i :: 0 <= i < |choices| ==> Fits(s.ballot[s.cursor + i], choices[i])
    ensures RunBallot(s, choices).votes == s.votes + BallotVotes(s.ballot[s.cursor..], choices, s.voter.value)
    ensures RunBallot(s, choices).store == s.store - SESSION_KEYS
    ensures RunBallot(s, choices).route == Confirmation
    decreases |choices|
  {
    var c := choices[0];
    assert Fits(s.ballot[s.cursor], c);
    var next := Confirm(ChooseSlate(s, c.slate), c.votedAt);
    RunStep(s, c);
    var v := s.voter.value;
    var first := Vote(s.ballot[s.cursor].id, c.slate, v.name, v.cpf, c.votedAt);
    if choices[1..] == [] {
      assert RunBallot(s, choices) == next;
      assert BallotVotes(s.ballot[s.cursor..], choices, v) == [first] by {
        assert s.ballot[s.cursor..] == [s.ballot[s.cursor]];
      }
    } else {
      assert RunBallot(s, choices) == RunBallot(next, choices[1..]);
      assert forall i :: 0 <= i < |choices[1..]| ==> Fits(next.ballot[next.cursor + i], choices[1..][i]) by {
        forall i | 0 <= i < |choices| - 1 ensures Fits(next.ballot[next.cursor + i], choices[1..][i]) {
          assert Fits(s.ballot[s.cursor + (i + 1)], choices[i + 1]);
        }
      }
      RunBallotCompletes(next, choices[1..]);
      var rest := BallotVotes(next.ballot[next.cursor..], choices[1..], v);
      assert BallotVotes(s.ballot[s.cursor..], choices, v) == [first] + rest by {
        assert s.ballot[s.cursor..][1..] == next.ballot[next.cursor..];
      }
      VotesAppend(s.votes, first, rest);
    }
  }

  /** Recording one vote and then a run of votes is recording the whole run. */
  lemma VotesAppend(votes: seq<Vote>, first: Vote, rest: seq<Vote>)
    ensures (votes + [first]) + rest == votes + ([first] + rest)
  {
  }
}
