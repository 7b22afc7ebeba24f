/** `select_protocol` as the vote-counting loop it is, proved against the election of GroupModel. */
module ProtocolElection {
  import opened Text
  import opened GroupModel
  import opened ProtocolChoice

  // ----- Choosing the protocol

  function Ballots(members: Members, done: set<string>, name: string): set<string> {
    set id | id in done && id in members && VotesFor(members, id, name)
  }

  lemma NextBallot(members: Members, done: set<string>, id: string, choice: string)
    requires id in members && id !in done && VotesFor(members, id, choice)
    ensures Ballots(members, done + {id}, choice) == Ballots(members, done, choice) + {id}
    ensures forall name | name != choice :: Ballots(members, done + {id}, name) == Ballots(members, done, name)
  {
  }

  ghost predicate Tally(members: Members, done: set<string>, votes: map<string, nat>) {
    forall name: string ::
      && (name in votes <==> Ballots(members, done, name) != {})
      && (name in votes ==> votes[name] == |Ballots(members, done, name)|)
  }

  lemma TallyStep(members: Members, done: set<string>, votes: map<string, nat>, id: string, choice: string)
    requires Tally(members, done, votes) && id in members && id !in done && VotesFor(members, id, choice)
    ensures Tally(members, done + {id}, votes[choice := (if choice in votes then votes[choice] else 0) + 1])
  {
    hide VotesFor;
    NextBallot(members, done, id, choice);
    assert id !in Ballots(members, done, choice);
  }

  lemma TallyIsFinal(members: Members, votes: map<string, nat>)
    requires Tally(members, members.Keys, votes)
    ensures forall name: string :: name in votes <==> Voters(members, name) != {}
    ensures forall name: string | name in votes :: votes[name] == |Voters(members, name)|
  {
    hide VotesFor;
    forall name: string ensures Ballots(members, members.Keys, name) == Voters(members, name) {
    }
  }

  predicate Undecided(members: Members, id: string)
    requires id in members
  {
    FirstCommon(members, members[id], 0) == |members[id].protocols|
  }

  method CountVotes(members: Members) returns (votes: map<string, nat>, failed: bool)
    ensures failed <==> exists id :: id in members && Undecided(members, id)
    ensures !failed ==> Tally(members, members.Keys, votes)
  {
    hide Tally, FirstCommon, Undecided;
    votes, failed := map[], false;
    ghost var done: set<string> := {};
    var rest := members.Keys;
    assert Tally(members, done, votes) by { EmptyTally(members); }
    while rest != {}
      invariant rest <= members.Keys && done == members.Keys - rest
      invariant forall id | id in done :: !Undecided(members, id)
      invariant Tally(members, done, votes)
      decreases rest
    {
      var id :| id in rest;
      var protocols := members[id].protocols;
      var preferred := FirstCommon(members, members[id], 0);
      UndecidedMeans(members, id);
      if preferred == |protocols| {
        return votes, true;
      }
      var name := protocols[preferred].name;
      TallyStep(members, done, votes, id, name);
      votes := votes[name := (if name in votes then votes[name] else 0) + 1];
      done := done + {id};
      rest := rest - {id};
    }
    assert done == members.Keys;
  }

  lemma UndecidedMeans(members: Members, id: string)
    requires id in members
    ensures Undecided(members, id) <==> FirstCommon(members, members[id], 0) == |members[id].protocols|
    ensures !Undecided(members, id) ==>
              VotesFor(members, id, members[id].protocols[FirstCommon(members, members[id], 0)].name)
  {
  }

  lemma EmptyTally(members: Members)
    ensures Tally(members, {}, map[])
  {
  }

  // `best` is at least as good as every name of `seen`.
  ghost predicate Leads(members: Members, best: string, seen: set<string>) {
    forall other | other in seen :: Beats(members, best, other)
  }

  lemma LeadsStep(members: Members, best: string, name: string, seen: set<string>)
    requires Leads(members, best, seen)
    ensures Beats(members, name, best) ==> Leads(members, name, seen + {name})
    ensures !Beats(members, name, best) ==> Leads(members, best, seen + {name})
  {
    LeIsTotal(name, name);
    LeIsTotal(name, best);
    if Beats(members, name, best) {
      forall other | other in seen ensures Beats(members, name, other) {
        if |Voters(members, name)| == |Voters(members, best)| == |Voters(members, other)| {
          LeIsTransitive(name, best, other);
        }
      }
    }
  }

  lemma LeaderIsElected(members: Members, best: string, names: set<string>)
    requires best in names && Leads(members, best, names)
    requires forall name: string :: name in names <==> Voters(members, name) != {}
    ensures SelectProtocol(members) == Some(best)
  {
    hide SelectProtocol;
    forall other: string | Voters(members, other) != {} ensures Beats(members, best, other) {
    }
    SelectIsTheElected(members, best);
  }

  // `max_by` over the votes.
  method MostVoted(members: Members, votes: map<string, nat>) returns (best: string)
    requires votes != map[] && forall name | name in votes :: votes[name] == |Voters(members, name)|
    ensures best in votes && Leads(members, best, votes.Keys)
  {
    hide Leads, Voters;
    best :| best in votes;
    var rest := votes.Keys - {best};
    ghost var seen := {best};
    LeadsAlone(members, best);
    while rest != {}
      invariant best in votes && rest <= votes.Keys && seen == votes.Keys - rest
      invariant Leads(members, best, seen)
      decreases rest
    {
      var name :| name in rest;
      LeadsStep(members, best, name, seen);
      if votes[best] < votes[name] || (votes[best] == votes[name] && Le(name, best)) {
        best := name;
      }
      seen := seen + {name};
      rest := rest - {name};
    }
    assert seen == votes.Keys;
  }

  method ChooseProtocol(members: Members) returns (choice: Option<string>)
    ensures choice == SelectProtocol(members)
  {
    hide SelectProtocol, Voters, IsElected, Leads, Undecided;
    SelectSucceedsIffShared(members);
    if members == map[] {
      return None;
    }
    var votes, failed := CountVotes(members);
    if failed {
      NoCommonProtocol(members);
      return None;
    }
    TallyIsFinal(members, votes);
    EverybodyVotes(members, Pick(members.Keys));
    var best := MostVoted(members, votes);
    LeaderIsElected(members, best, votes.Keys);
    return Some(best);
  }

  lemma LeadsAlone(members: Members, best: string)
    ensures Leads(members, best, {best})
  {
    LeIsTotal(best, best);
  }

  lemma NoCommonProtocol(members: Members)
    requires exists id :: id in members && Undecided(members, id)
    ensures !exists common :: Common(members, common)
  {
    var id :| id in members && Undecided(members, id);
    forall common: string ensures !Common(members, common) {
      if Advertises(members[id], common) {
        var i :| 0 <= i < |members[id].protocols| && members[id].protocols[i].name == common;
      }
    }
  }

  lemma EverybodyVotes(members: Members, id: string)
    requires id in members && !Undecided(members, id)
    ensures exists name :: Voters(members, name) != {}
  {
    var name := members[id].protocols[FirstCommon(members, members[id], 0)].name;
    assert id in Voters(members, name);
  }
}
