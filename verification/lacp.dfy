/**
 * Link aggregation groups (src/layers/layer2/protocols/LACP.ts): a map
 * from logical link id to an ordered list of physical links.
 */
module Lacp {
  import opened Wrappers
  import opened Strings

  datatype Lacp = Lacp(groups: map<string, seq<string>>)

  const AggregationFailed: string := "Aggregation failed."
  const GroupPrefix: string := "LACP_GROUP_"

  function Init(): (s: Lacp)
    ensures s.groups == map[]
  {
    Lacp(map[])
  }

  /** `LACP_GROUP_${n}` for the drawn `n`. */
  function GroupId(n: nat): (id: string)
    ensures |id| > |GroupPrefix| && id[..|GroupPrefix|] == GroupPrefix
    ensures AllDigits(id[|GroupPrefix|..])
  {
    GroupPrefix + NatToString(n)
  }

  /** Different draws give different ids, and no id is the failure message. */
  lemma GroupIdDistinct(m: nat, n: nat)
    ensures GroupId(m) == GroupId(n) <==> m == n
    ensures GroupId(n) != AggregationFailed
  {
    if GroupId(m) == GroupId(n) {
      assert NatToString(m) == GroupId(m)[|GroupPrefix|..];
      NatToStringInjective(m, n);
    }
    assert GroupId(n)[0] == 'L' != AggregationFailed[0];
  }

  /**
   * `aggregateLinks(links)` with `draw` standing for `Math.floor(Math.random() * 1000)`.
   * The list is stored as given: duplicates are kept, and an existing group
   * under the same id is replaced.
   */
  function AggregateLinks(s: Lacp, links: seq<string>, draw: nat): (res: (Lacp, string))
    requires draw < 1000
    ensures |links| < 2 ==> res == (s, AggregationFailed)
    ensures |links| >= 2 ==> res.1 == GroupId(draw) && res.0.groups == s.groups[GroupId(draw) := links]
  {
    if |links| < 2 then (s, AggregationFailed)
    else
      var id := GroupId(draw);
      (s.(groups := s.groups[id := links]), id)
  }

  /** `checkAggregatedLinkStatus(id)` with the activity draw `active`. */
  function CheckAggregatedLinkStatus(s: Lacp, id: string, active: bool): (up: bool)
    ensures up ==> id in s.groups && active
    ensures id in s.groups ==> up == active
  {
    id in s.groups && active
  }

  /** `addLinkToGroup(id, link)`. */
  function AddLinkToGroup(s: Lacp, id: string, link: string): (res: (Lacp, bool))
    ensures !res.1 <==> id !in s.groups || link in s.groups[id]
    ensures !res.1 ==> res.0 == s
    ensures res.1 ==> res.0.groups == s.groups[id := s.groups[id] + [link]]
  {
    if id !in s.groups || link in s.groups[id] then (s, false)
    else (s.(groups := s.groups[id := s.groups[id] + [link]]), true)
  }

  /** `links.indexOf(link)`, with `None` for `-1`. */
  function FirstIndex(links: seq<string>, link: string): (i: Option<nat>)
    ensures i.Some? ==> i.value < |links| && links[i.value] == link && link !in links[..i.value]
    ensures i.None? <==> link !in links
  {
    if |links| == 0 then None
    else if links[0] == link then Some(0)
    else match FirstIndex(links[1..], link)
      case Some(j) =>
        assert links[..j + 1] == [links[0]] + links[1..][..j];
        Some(j + 1)
      case None => None
  }

  /** `removeLinkFromGroup(id, link)`: `indexOf` then `splice(index, 1)`. */
  function RemoveLinkFromGroup(s: Lacp, id: string, link: string): (res: (Lacp, bool))
    ensures !res.1 <==> id !in s.groups || link !in s.groups[id]
    ensures !res.1 ==> res.0 == s
    ensures res.1 ==> res.0.groups.Keys == s.groups.Keys
    ensures res.1 ==> forall g :: g in s.groups && g != id ==> res.0.groups[g] == s.groups[g]
    ensures res.1 ==>
      exists i :: 0 <= i < |s.groups[id]| && s.groups[id][i] == link && link !in s.groups[id][..i] &&
        res.0.groups[id] == s.groups[id][..i] + s.groups[id][i + 1..]
  {
    if id !in s.groups then (s, false)
    else match FirstIndex(s.groups[id], link)
      case None => (s, false)
      case Some(i) =>
        var links := s.groups[id];
        (s.(groups := s.groups[id := links[..i] + links[i + 1..]]), true)
  }

  /** Removal takes out exactly one copy of the link; there is no minimum group size. */
  lemma RemoveOneCopy(s: Lacp, id: string, link: string)
    requires RemoveLinkFromGroup(s, id, link).1
    ensures multiset(RemoveLinkFromGroup(s, id, link).0.groups[id]) == multiset(s.groups[id]) - multiset{link}
    ensures |RemoveLinkFromGroup(s, id, link).0.groups[id]| == |s.groups[id]| - 1
  {
    var links := s.groups[id];
    var i := FirstIndex(links, link).value;
    assert links == links[..i] + [link] + links[i + 1..];
  }

  /** Removing a link just added restores the groups. */
  lemma AddThenRemove(s: Lacp, id: string, link: string)
    requires AddLinkToGroup(s, id, link).1
    ensures RemoveLinkFromGroup(AddLinkToGroup(s, id, link).0, id, link) == (s, true)
  {
    var links := s.groups[id];
    var s1 := AddLinkToGroup(s, id, link).0;
    var grown := links + [link];
    assert s1.groups[id] == grown;
    var i := FirstIndex(grown, link).value;
    assert link !in links;
    assert i == |links|;
    assert grown[..i] + grown[i + 1..] == links;
    assert s.groups[id := grown][id := links] == s.groups;
  }

  /**
   * A group just aggregated reports the activity draw, and no edit of its
   * links ever takes a group away, so its status keeps following the draw.
   */
  lemma StatusAfterEdits(s: Lacp, links: seq<string>, draw: nat, id: string, link: string, active: bool)
    requires draw < 1000
    ensures |links| >= 2 ==>
      CheckAggregatedLinkStatus(AggregateLinks(s, links, draw).0, AggregateLinks(s, links, draw).1, active) == active
    ensures CheckAggregatedLinkStatus(AddLinkToGroup(s, id, link).0, id, active) == CheckAggregatedLinkStatus(s, id, active)
    ensures CheckAggregatedLinkStatus(RemoveLinkFromGroup(s, id, link).0, id, active) == CheckAggregatedLinkStatus(s, id, active)
  {
  }

  /** No group lists a link twice. */
  predicate NoDuplicates(g: map<string, seq<string>>) {
    forall id, i, j :: id in g && 0 <= i < j < |g[id]| ==> g[id][i] != g[id][j]
  }

  /** Adding and removing links keep the groups free of duplicates. */
  lemma EditsKeepNoDuplicates(s: Lacp, id: string, link: string)
    requires NoDuplicates(s.groups)
    ensures NoDuplicates(AddLinkToGroup(s, id, link).0.groups)
    ensures NoDuplicates(RemoveLinkFromGroup(s, id, link).0.groups)
  {
    var r := RemoveLinkFromGroup(s, id, link);
    if r.1 {
      var links := s.groups[id];
      var i := FirstIndex(links, link).value;
      var rest := links[..i] + links[i + 1..];
      assert forall k :: 0 <= k < |rest| ==> rest[k] == if k < i then links[k] else links[k + 1];
    }
    var a := AddLinkToGroup(s, id, link);
    if a.1 {
      var grown := s.groups[id] + [link];
      forall i, j | 0 <= i < j < |grown|
        ensures grown[i] != grown[j]
      {
        if j == |grown| - 1 {
          assert grown[i] in s.groups[id];
        }
      }
    }
  }

  /** `aggregateLinks` does not reject duplicate links. */
  lemma AggregateKeepsDuplicates()
    ensures !NoDuplicates(AggregateLinks(Init(), ["eth0", "eth0"], 0).0.groups)
  {
    var g := AggregateLinks(Init(), ["eth0", "eth0"], 0).0.groups;
    assert g[GroupId(0)][0] == g[GroupId(0)][1];
  }
}
