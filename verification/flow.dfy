/** Properties of the whole flow: what the selection page hands over to the ballot page
    through the store, and what a completed ballot means for the next selection. */
module Flow {
  import opened Wrappers
  import opened Seqs
  import opened Domain
  import opened SelectElections
  import opened Ballot

  /** An id occurs in a list of elections exactly when one of them carries it. */
  lemma ElectionIdsMembership(es: seq<Election>, id: string)
    ensures id in ElectionIds(es) <==> exists e :: e in es && e.id == id
  {
    if id in ElectionIds(es) {
      var i :| 0 <= i < |es| && ElectionIds(es)[i] == id;
      assert es[i] in es;
    }
  }

  /** Every selected id names an election of the catalogue when the listed elections all
      come from it. */
  lemma SelectedIdsKnown(s: SessionState, catalogue: seq<Election>)
    requires SelectionValid(s)
    requires forall e :: e in s.available ==> e in catalogue
    ensures forall id :: id in s.selection ==> id in ElectionIds(catalogue)
  {
    forall id | id in s.selection ensures id in ElectionIds(catalogue) {
      ElectionIdsMembership(s.available, id);
      ElectionIdsMembership(catalogue, id);
    }
  }

  /** Committing a selection and then opening the ballot page gives a ballot of exactly the
      selected elections, in the order they were selected, with the cursor on the first one
      and the same voter. */
  lemma StartVotingThenMountBallot(s: SessionState, catalogue: seq<Election>)
    requires WellTyped(s.store) && VOTER_KEY in s.store
    requires s.selection != [] && SelectionValid(s)
    requires forall e :: e in s.available ==> e in catalogue
    ensures var t := MountBallot(StartVoting(s), catalogue);
      && ElectionIds(t.ballot) == s.selection
      && t.cursor == 0 && t.pending == None
      && t.route == Voting
      && t.voter == Some(s.store[VOTER_KEY].voter)
  {
    SelectedIdsKnown(s, catalogue);
    ResolveKnownIds(s.selection, catalogue);
    var started := StartVoting(s);
    assert started.store[VOTER_KEY] == s.store[VOTER_KEY];
  }

  /** The vote store as the answer to "has this cpf voted in this election?". */
  function VotedIn(votes: seq<Vote>): (hasVoted: HasVoted)
    ensures forall i, cpf, id :: 0 <= i < |votes| && votes[i].voterCpf == cpf && votes[i].electionId == id
              ==> hasVoted(cpf, id)
  {
    (cpf, id) => exists v :: v in votes && v.voterCpf == cpf && v.electionId == id
  }

  /** After a completed ballot the vote records hold, for that voter, a vote in each
      election that was still ahead of the cursor. */
  lemma CompletedBallotRecorded(s: SessionState, choices: seq<Choice>, i: nat)
    requires WellTyped(s.store) && s.voter.Some?
    requires choices != [] && s.cursor + |choices| == |s.ballot|
    requires forall k :: 0 <= k < |choices| ==> Fits(s.ballot[s.cursor + k], choices[k])
    requires i < |choices|
    ensures VotedIn(RunBallot(s, choices).votes)(s.voter.value.cpf, ElectionIds(s.ballot[s.cursor..])[i])
  {
    var t := RunBallot(s, choices);
    RunBallotCompletes(s, choices);
    var cast := BallotVotes(s.ballot[s.cursor..], choices, s.voter.value);
    assert t.votes[|s.votes| + i] == cast[i];
  }

  /** After a completed ballot, when the vote store answers "has voted" from its records,
      no election carrying the id of one just voted in is offered to that voter again. */
  lemma CompletedBallotNotOfferedAgain(s: SessionState, choices: seq<Choice>, active: seq<Election>)
    requires WellTyped(s.store) && s.voter.Some?
    requires choices != [] && s.cursor + |choices| == |s.ballot|
    requires forall i :: 0 <= i < |choices| ==> Fits(s.ballot[s.cursor + i], choices[i])
    ensures var t := RunBallot(s, choices);
      forall a :: a in Available(active, VotedIn(t.votes), s.voter.value.cpf) ==>
        a.id !in ElectionIds(s.ballot[s.cursor..])
  {
    var t := RunBallot(s, choices);
    var cpf := s.voter.value.cpf;
    var ids := ElectionIds(s.ballot[s.cursor..]);
    forall a | a in Available(active, VotedIn(t.votes), cpf) ensures a.id !in ids {
      assert !VotedIn(t.votes)(cpf, a.id);
      forall i | 0 <= i < |ids| ensures ids[i] != a.id {
        CompletedBallotRecorded(s, choices, i);
      }
    }
  }
}
