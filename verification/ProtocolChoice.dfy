/** What `select_protocol` chooses, and exactly when it can choose at all. */
module ProtocolChoice {
  import opened Text
  import opened GroupModel

  // ----- The election

  // `a` is at least as good a candidate as `b`.
  predicate Beats(members: Members, a: string, b: string) {
    || |Voters(members, b)| < |Voters(members, a)|
    || (|Voters(members, b)| == |Voters(members, a)| && Le(a, b))
  }

  lemma BestOf(members: Members, names: set<string>) returns (best: string)
    requires names != {}
    ensures best in names && forall other | other in names :: Beats(members, best, other)
    decreases |names|
  {
    var name := Pick(names);
    LeIsTotal(name, name);
    var rest := names - {name};
    assert forall other | other in names :: other == name || other in rest;
    if rest == {} {
      best := name;
    } else {
      best := BestOf(members, rest);
      LeIsTotal(best, name);
      if !Beats(members, best, name) {
        forall other | other in rest ensures Beats(members, name, other) {
          if |Voters(members, name)| == |Voters(members, best)| == |Voters(members, other)| {
            LeIsTransitive(name, best, other);
          }
        }
        best := name;
      }
    }
  }

  ghost function Preferred(members: Members, id: string): (name: string)
    requires id in members && exists common :: Common(members, common)
    ensures VotesFor(members, id, name) && Common(members, name)
  {
    var m := members[id];
    var i := FirstCommon(members, m, 0);
    var common :| Common(members, common);
    assert Advertises(m, common);
    m.protocols[i].name
  }

  lemma ElectionSucceeds(members: Members, common: string) returns (winner: string)
    requires members != map[] && Common(members, common)
    ensures IsElected(members, winner)
  {
    var names := set id | id in members :: Preferred(members, id);
    var someone := Pick(members.Keys);
    assert Preferred(members, someone) in names;
    winner := BestOf(members, names);
    var backer :| backer in members && Preferred(members, backer) == winner;
    assert backer in Voters(members, winner);
    forall other: string | Voters(members, other) != {} ensures Beats(members, winner, other) {
      var id := Pick(Voters(members, other));
      assert Preferred(members, id) == other && other in names;
    }
  }

  lemma ElectedIsCommon(members: Members, winner: string)
    requires IsElected(members, winner)
    ensures members != map[] && Common(members, winner)
  {
    var id := Pick(Voters(members, winner));
  }

  lemma ElectedIsUnique(members: Members, a: string, b: string)
    requires IsElected(members, a) && IsElected(members, b)
    ensures a == b
  {
    LeIsAntisymmetric(a, b);
  }

  // `select_protocol` fails exactly when there are no members or they share no protocol.
  lemma SelectSucceedsIffShared(members: Members)
    ensures SelectProtocol(members).Some? <==> members != map[] && exists common :: Common(members, common)
    ensures SelectProtocol(members).Some? ==> IsElected(members, SelectProtocol(members).value)
    ensures SelectProtocol(members).Some? ==> Common(members, SelectProtocol(members).value)
  {
    if SelectProtocol(members).Some? {
      ElectedIsCommon(members, SelectProtocol(members).value);
    }
    if members != map[] && exists common :: Common(members, common) {
      var common :| Common(members, common);
      var winner := ElectionSucceeds(members, common);
    }
  }

  // Whoever is elected is what `select_protocol` returns, so the order in which a map yields its
  // members cannot matter.
  lemma SelectIsTheElected(members: Members, winner: string)
    requires IsElected(members, winner)
    ensures SelectProtocol(members) == Some(winner)
  {
    ElectedIsUnique(members, winner, SelectProtocol(members).value);
  }

  // Removing members keeps a shared protocol shared.
  lemma SelectSurvivesRemoval(members: Members, gone: set<string>)
    requires SelectProtocol(members).Some? && members - gone != map[]
    ensures SelectProtocol(members - gone).Some?
  {
    SelectSucceedsIffShared(members);
    assert Common(members - gone, SelectProtocol(members).value);
    SelectSucceedsIffShared(members - gone);
  }

  // ----- Metadata of the chosen protocol

  lemma {:induction false} MetadataExists(protocols: seq<JoinProtocol>, name: string, i: nat)
    requires i < |protocols| && protocols[i].name == name
    ensures MetadataFor(protocols, name).Some?
  {
    if i > 0 && protocols[0].name != name {
      MetadataExists(protocols[1..], name, i - 1);
    }
  }

  // The leader's list is exactly the members, sorted, when the chosen protocol is common.
  lemma {:induction false} ListIsComplete(members: Members, name: string, ids: seq<string>)
    requires Common(members, name) && forall i | 0 <= i < |ids| :: ids[i] in members
    ensures |ListMembers(members, name, ids)| == |ids|
    ensures forall i | 0 <= i < |ids| :: ListMembers(members, name, ids)[i].memberId == ids[i]
    ensures forall i | 0 <= i < |ids| ::
      Some(ListMembers(members, name, ids)[i].metadata) == MetadataFor(members[ids[i]].protocols, name)
  {
    if ids != [] {
      var m := members[ids[0]];
      var i :| 0 <= i < |m.protocols| && m.protocols[i].name == name;
      MetadataExists(m.protocols, name, i);
      ListIsComplete(members, name, ids[1..]);
    }
  }
}
