/** The election-selection page (`/selecionar-eleicoes`): which elections the voter may
    still vote in, the toggled selection, and the two ways out of the page. */
module SelectElections {
  import opened Wrappers
  import opened Seqs
  import opened Domain

  /** `sel` with every occurrence of `id` removed, the others kept in order. */
  function Without(sel: seq<string>, id: string): (r: seq<string>)
    ensures id !in r
    ensures multiset(r) == multiset(sel)[id := 0]
  {
    var r := Filter(sel, x => x != id);
    assert forall x :: multiset(r)[x] == multiset(sel)[id := 0][x];
    r
  }

  /** Clicking an election card: `prev.includes(id) ? prev.filter(x => x !== id) : [...prev, id]`. */
  function Toggle(sel: seq<string>, id: string): (r: seq<string>)
    ensures id in r <==> id !in sel
    ensures forall x :: x != id ==> (x in r <==> x in sel)
  {
    if id in sel then Without(sel, id) else sel + [id]
  }

  /** Toggling an absent id appends it at the end; the entries already selected stay, in order. */
  lemma ToggleAbsent(sel: seq<string>, id: string)
    requires id !in sel
    ensures |Toggle(sel, id)| == |sel| + 1
    ensures Toggle(sel, id)[..|sel|] == sel && Toggle(sel, id)[|sel|] == id
  {
  }

  /** Toggling a present id removes every occurrence of it and keeps every other entry,
      with its multiplicity and in its relative order. */
  lemma TogglePresent(sel: seq<string>, id: string)
    requires id in sel
    ensures id !in Toggle(sel, id)
    ensures multiset(Toggle(sel, id)) == multiset(sel)[id := 0]
    ensures Subseq(Toggle(sel, id), sel)
  {
    FilterIsSubseq(sel, x => x != id);
  }

  /** A selection without duplicates stays without duplicates. */
  lemma ToggleKeepsNoDup(sel: seq<string>, id: string)
    requires NoDup(sel)
    ensures NoDup(Toggle(sel, id))
  {
    if id in sel {
      FilterKeepsNoDup(sel, x => x != id);
    } else {
      AppendKeepsNoDup(sel, id);
    }
  }

  /** Toggling the same id twice gives back the same set of ids. */
  lemma ToggleTwiceSameSet(sel: seq<string>, id: string)
    ensures forall x :: x in Toggle(Toggle(sel, id), id) <==> x in sel
  {
  }

  /** As a sequence, toggling twice gives back the original exactly when the id was
      absent, or occurred only once and in the last position. */
  lemma ToggleTwiceIdentity(sel: seq<string>, id: string)
    ensures Toggle(Toggle(sel, id), id) == sel
        <==> id !in sel || (sel[|sel| - 1] == id && id !in sel[..|sel| - 1])
  {
    if id in sel {
      ToggleTwicePresent(sel, id);
    } else {
      ToggleTwiceAbsent(sel, id);
    }
  }

  /** Adding an absent id and removing it again restores the selection. */
  lemma ToggleTwiceAbsent(sel: seq<string>, id: string)
    requires id !in sel
    ensures Toggle(Toggle(sel, id), id) == sel
  {
    assert Toggle(sel, id) == sel + [id];
    WithoutAppend(sel, id);
    WithoutAbsent(sel, id);
  }

  /** Removing a present id and adding it back moves it, once, to the end. */
  lemma ToggleTwicePresent(sel: seq<string>, id: string)
    requires id in sel
    ensures Toggle(Toggle(sel, id), id) == Without(sel, id) + [id]
    ensures Without(sel, id) + [id] == sel <==> sel[|sel| - 1] == id && id !in sel[..|sel| - 1]
  {
    var n := |sel|;
    var w := Without(sel, id);
    if sel[n - 1] == id && id !in sel[..n - 1] {
      assert sel == sel[..n - 1] + [id];
      WithoutAppend(sel[..n - 1], id);
      WithoutAbsent(sel[..n - 1], id);
    }
  }

  /** Removing an id that does not occur changes nothing. */
  lemma {:induction false} WithoutAbsent(sel: seq<string>, id: string)
    requires id !in sel
    ensures Without(sel, id) == sel
  {
    if sel != [] {
      WithoutAbsent(sel[1..], id);
      assert Filter(sel, x => x != id) == [sel[0]] + Filter(sel[1..], x => x != id);
    }
  }

  /** Removing an id from a sequence that ends in it drops that last entry. */
  lemma {:induction false} WithoutAppend(sel: seq<string>, id: string)
    ensures Without(sel + [id], id) == Without(sel, id)
  {
    if sel == [] {
      assert Filter([id], x => x != id) == Filter([id][1..], x => x != id);
    } else {
      WithoutAppend(sel[1..], id);
      assert (sel + [id])[1..] == sel[1..] + [id];
    }
  }

  /** The elections offered to the voter with this cpf: the active ones the voter has not
      voted in yet, in catalogue order (`activeElections.filter(e => !hasVotedInElection(cpf, e.id))`). */
  function Available(active: seq<Election>, hasVoted: HasVoted, cpf: string): (r: seq<Election>)
    ensures forall e :: e in r <==> e in active && !hasVoted(cpf, e.id)
  {
    Filter(active, (e: Election) => !hasVoted(cpf, e.id))
  }

  /** The available list is a subsequence of the active list: catalogue order is kept. */
  lemma AvailableInOrder(active: seq<Election>, hasVoted: HasVoted, cpf: string)
    ensures Subseq(Available(active, hasVoted, cpf), active)
  {
    FilterIsSubseq(active, (e: Election) => !hasVoted(cpf, e.id));
  }

  /** A voter who has voted in none of the active elections is offered all of them. */
  lemma AvailableWhenNoneVoted(active: seq<Election>, hasVoted: HasVoted, cpf: string)
    requires forall e :: e in active ==> !hasVoted(cpf, e.id)
    ensures Available(active, hasVoted, cpf) == active
  {
    FilterKeepsAll(active, (e: Election) => !hasVoted(cpf, e.id));
  }

  /** Mounting the page: fresh page state, then the effect. Without a stored voter the page
      goes to `/` and lists nothing; otherwise it remembers the voter and lists the
      elections that voter may still vote in. Mounting never writes the store or the votes. */
  function MountSelector(s: SessionState, active: seq<Election>, hasVoted: HasVoted): (t: SessionState)
    requires WellTyped(s.store)
    ensures t.store == s.store && t.votes == s.votes && t.selection == []
    ensures t.ballot == s.ballot && t.cursor == s.cursor && t.pending == s.pending
    ensures VOTER_KEY !in s.store ==> t.route == Identification && t.voter == None && t.available == []
    ensures VOTER_KEY in s.store ==>
      && t.route == s.route
      && t.voter == Some(s.store[VOTER_KEY].voter)
      && t.available == Available(active, hasVoted, s.store[VOTER_KEY].voter.cpf)
  {
    var mounted := s.(voter := None, available := [], selection := []);
    match StoredVoter(s.store)
    case None => mounted.(route := Identification)
    case Some(v) => mounted.(voter := Some(v), available := Available(active, hasVoted, v.cpf))
  }

  /** The ids the voter can click: those of the listed elections. */
  predicate SelectionValid(s: SessionState)
  {
    && NoDup(s.selection)
    && forall id :: id in s.selection ==> id in ElectionIds(s.available)
  }

  /** `handleToggleElection`, bound only to the cards of the listed elections. */
  function ToggleElection(s: SessionState, id: string): (t: SessionState)
    requires id in ElectionIds(s.available)
    ensures id in t.selection <==> id !in s.selection
    ensures forall x :: x != id ==> (x in t.selection <==> x in s.selection)
    ensures t.(selection := s.selection) == s
  {
    s.(selection := Toggle(s.selection, id))
  }

  /** Toggling keeps the selection a duplicate-free list of listed election ids. */
  lemma ToggleElectionKeepsValid(s: SessionState, id: string)
    requires SelectionValid(s) && id in ElectionIds(s.available)
    ensures SelectionValid(ToggleElection(s, id))
  {
    ToggleKeepsNoDup(s.selection, id);
  }

  /** `handleStartVoting`: an empty selection changes nothing; otherwise the selection and a
      cursor of 0 are stored, every other key is left as it was, and the page goes to `/votar`. */
  function StartVoting(s: SessionState): (t: SessionState)
    requires WellTyped(s.store)
    ensures WellTyped(t.store)
    ensures s.selection == [] ==> t == s
    ensures s.selection != [] ==>
      && StoredSelection(t.store) == Some(s.selection)
      && StoredIndex(t.store) == Some(0)
      && t.route == Voting
      && (forall k :: k != SELECTED_KEY && k != INDEX_KEY ==>
            (k in t.store <==> k in s.store) && (k in s.store ==> t.store[k] == s.store[k]))
      && t.(store := s.store, route := s.route) == s
  {
    if s.selection == [] then s
    else s.(store := s.store[SELECTED_KEY := IdsEntry(s.selection)][INDEX_KEY := IndexEntry(0)], route := Voting)
  }

  /** The button shown when nothing is left to vote in: the three session keys are removed,
      every other key is left as it was, and the page goes to `/`. */
  function ExitNoElections(s: SessionState): (t: SessionState)
    requires s.available == []
    ensures VOTER_KEY !in t.store && SELECTED_KEY !in t.store && INDEX_KEY !in t.store
    ensures forall k :: k !in SESSION_KEYS ==>
      (k in t.store <==> k in s.store) && (k in s.store ==> t.store[k] == s.store[k])
    ensures WellTyped(t.store)
    ensures t.route == Identification
    ensures t.(store := s.store, route := s.route) == s
  {
    s.(store := s.store - SESSION_KEYS, route := Identification)
  }
}
