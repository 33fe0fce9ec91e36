/**
  The proximity matcher (main.py, show_nearby_drivers and show_nearby_clients):
  a querier's stored location is compared with every record of the opposite
  partition, in enumeration order, and the records that have a location
  strictly closer than the radius are kept.

  The geodesic distance in kilometres is a parameter `dist`; nothing is
  assumed about it unless a lemma says so.
*/
module Matcher {
  import opened Wrappers
  import opened Registry

  /** The fixed search radius, in kilometres. */
  const Radius: real := 10.0

  /** What a result line shows of a counterpart: its phone and where it is. */
  datatype Match = Match(phone: string, location: Location)

  /** The three replies a querier can get. */
  datatype NearbyOutcome =
    | LocationUnknown              // the querier's own location is not stored
    | NoneNearby                   // nobody within the radius
    | Nearby(matches: seq<Match>)  // at least one counterpart within the radius

  /** `info['location'] and distance(querier, info['location']) < 10` */
  function Within(q: Location, rec: Record, dist: (Location, Location) -> real): (b: bool)
    ensures b ==> rec.location.Some?
    ensures rec.location.Some? && dist(q, rec.location.value) >= Radius ==> !b
  {
    rec.location.Some? && dist(q, rec.location.value) < Radius
  }

  function MatchOf(rec: Record): Match
    requires rec.location.Some?
  {
    Match(rec.phone, rec.location.value)
  }

  /** The list comprehension over the counterparts' records. */
  function Filter(q: Location, recs: seq<Record>, dist: (Location, Location) -> real): (ms: seq<Match>)
    ensures |ms| <= |recs|
    ensures forall m :: m in ms ==> dist(q, m.location) < Radius
  {
    if recs == [] then []
    else if Within(q, recs[0], dist) then [MatchOf(recs[0])] + Filter(q, recs[1..], dist)
    else Filter(q, recs[1..], dist)
  }

  /**
    An independent account of which records the comprehension keeps: the
    ascending list of the positions of the records within the radius.
  */
  function Kept(q: Location, recs: seq<Record>, dist: (Location, Location) -> real): seq<nat>
    decreases |recs|
  {
    if recs == [] then []
    else
      var rest := Kept(q, recs[..|recs| - 1], dist);
      if Within(q, recs[|recs| - 1], dist) then rest + [|recs| - 1] else rest
  }

  lemma {:induction false} FilterSnoc(q: Location, recs: seq<Record>, rec: Record, dist: (Location, Location) -> real)
    ensures Filter(q, recs + [rec], dist) ==
            Filter(q, recs, dist) + (if Within(q, rec, dist) then [MatchOf(rec)] else [])
  {
    if recs == [] {
      assert recs + [rec] == [rec];
    } else {
      assert (recs + [rec])[1..] == recs[1..] + [rec];
      FilterSnoc(q, recs[1..], rec, dist);
    }
  }

  /**
    The comprehension keeps exactly the records that have a location within
    the radius, and keeps them in the order the partition enumerates them.
  */
  lemma {:induction false} FilterKeepsExactlyInOrder(q: Location, recs: seq<Record>, dist: (Location, Location) -> real)
    ensures var ms, ks := Filter(q, recs, dist), Kept(q, recs, dist);
      && |ms| == |ks|
      && (forall k :: 0 <= k < |ks| ==> ks[k] < |recs| && Within(q, recs[ks[k]], dist) && ms[k] == MatchOf(recs[ks[k]]))
      && (forall k, l :: 0 <= k < l < |ks| ==> ks[k] < ks[l])
      && (forall i :: 0 <= i < |recs| && Within(q, recs[i], dist) ==> i in ks)
    decreases |recs|
  {
    if recs != [] {
      var init, last := recs[..|recs| - 1], recs[|recs| - 1];
      assert recs == init + [last];
      FilterSnoc(q, init, last, dist);
      FilterKeepsExactlyInOrder(q, init, dist);
      var ks := Kept(q, recs, dist);
      forall i | 0 <= i < |recs| && Within(q, recs[i], dist) ensures i in ks {
        if i < |init| {
          assert init[i] == recs[i];
        }
      }
    }
  }

  /** A counterpart exactly on the radius is not listed: the bound is strict. */
  lemma BoundaryExcluded(q: Location, recs: seq<Record>, i: nat, dist: (Location, Location) -> real)
    requires i < |recs| && recs[i].location.Some? && dist(q, recs[i].location.value) == Radius
    ensures i !in Kept(q, recs, dist)
  {
    FilterKeepsExactlyInOrder(q, recs, dist);
  }

  /**
    The reply to a querier: an error when its location is not stored, the
    "none nearby" reply when the comprehension is empty, the list otherwise.
  */
  function ShowNearby(querier: Option<Location>, counterparts: seq<Record>, dist: (Location, Location) -> real): (r: NearbyOutcome)
    ensures r == LocationUnknown <==> querier.None?
    ensures r == NoneNearby <==> querier.Some? && forall rec :: rec in counterparts ==> !Within(querier.value, rec, dist)
    ensures r.Nearby? ==> r.matches != [] && r.matches == Filter(querier.value, counterparts, dist)
  {
    match querier
    case None => LocationUnknown
    case Some(q) =>
      var ms := Filter(q, counterparts, dist);
      FilterKeepsExactlyInOrder(q, counterparts, dist);
      if ms == [] then NoneNearby
      else
        var first := counterparts[Kept(q, counterparts, dist)[0]];
        assert first in counterparts && Within(q, first, dist);
        Nearby(ms)
  }

  /**
    The matcher of main.py for a querier registered under `role`: its own
    stored location against the opposite partition's records.
  */
  function NearbyFor(u: Users, role: Role, id: ChatId, dist: (Location, Location) -> real): (r: NearbyOutcome)
    requires u.Valid() && u.Lookup(role, id).Some?
    ensures r == LocationUnknown <==> u.Lookup(role, id).value.location.None?
  {
    ShowNearby(u.Part(role).entries[id].location, u.Part(Opposite(role)).Values(), dist)
  }

  /**
    A counterpart with a location strictly within the radius of the querier
    is listed, whichever side asks, provided the distance is symmetric.
  */
  lemma MutualInclusion(u: Users, role: Role, a: ChatId, b: ChatId, dist: (Location, Location) -> real)
    requires u.Valid()
    requires forall x, y :: dist(x, y) == dist(y, x)
    requires u.Lookup(role, a).Some? && u.Lookup(role, a).value.location.Some?
    requires u.Lookup(Opposite(role), b).Some? && u.Lookup(Opposite(role), b).value.location.Some?
    requires dist(u.Lookup(role, a).value.location.value, u.Lookup(Opposite(role), b).value.location.value) < Radius
    ensures NearbyFor(u, role, a, dist).Nearby?
    ensures MatchOf(u.Lookup(Opposite(role), b).value) in NearbyFor(u, role, a, dist).matches
    ensures NearbyFor(u, Opposite(role), b, dist).Nearby?
    ensures MatchOf(u.Lookup(role, a).value) in NearbyFor(u, Opposite(role), b, dist).matches
  {
    assert Opposite(Opposite(role)) == role;
    Listed(u, role, a, b, dist);
    Listed(u, Opposite(role), b, a, dist);
  }

  lemma Listed(u: Users, role: Role, a: ChatId, b: ChatId, dist: (Location, Location) -> real)
    requires u.Valid()
    requires u.Lookup(role, a).Some? && u.Lookup(role, a).value.location.Some?
    requires u.Lookup(Opposite(role), b).Some?
    requires Within(u.Lookup(role, a).value.location.value, u.Lookup(Opposite(role), b).value, dist)
    ensures NearbyFor(u, role, a, dist).Nearby?
    ensures MatchOf(u.Lookup(Opposite(role), b).value) in NearbyFor(u, role, a, dist).matches
  {
    var q := u.Lookup(role, a).value.location.value;
    var p := u.Part(Opposite(role));
    var recs := p.Values();
    var i :| 0 <= i < |p.order| && p.order[i] == b;
    assert recs[i] == p.entries[b];
    FilterKeepsExactlyInOrder(q, recs, dist);
    var ks := Kept(q, recs, dist);
    var k :| 0 <= k < |ks| && ks[k] == i;
    assert Filter(q, recs, dist)[k] == MatchOf(p.entries[b]);
  }
}
