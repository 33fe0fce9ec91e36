/**
  The in-memory user registry of the taxi bot: a `clients` partition and a
  `drivers` partition, each a Python dictionary from chat id to a record
  `{phone, location, request}`.

  A Python dictionary enumerates its keys in insertion order; assigning to a
  key that is already present keeps that key's position, a new key goes last.
  The matcher scans a partition in that order, so a partition is modelled as
  the key order together with the map of entries.
*/
module Registry {
  import opened Wrappers

  type ChatId = int

  /** The two partitions of the registry, named after their dictionary keys. */
  datatype Role = Clients | Drivers

  /** A (latitude, longitude) pair as the messaging gateway delivers it. */
  datatype Location = Location(latitude: real, longitude: real)

  /** One registry entry; `request` is never assigned anything but `None`. */
  datatype Record = Record(phone: string, location: Option<Location>, request: Option<string>)

  /** The record a contact share stores: a phone number, no location, no request. */
  function NewRecord(phone: string): (r: Record)
    ensures r.phone == phone && r.location == None && r.request == None
  {
    Record(phone, None, None)
  }

  function Opposite(role: Role): (r: Role)
    ensures r != role
  {
    if role == Clients then Drivers else Clients
  }

  ghost predicate Distinct(ids: seq<ChatId>)
  {
    forall i, j :: 0 <= i < j < |ids| ==> ids[i] != ids[j]
  }

  /** One partition: a dictionary whose keys enumerate in `order`. */
  datatype Partition = Partition(order: seq<ChatId>, entries: map<ChatId, Record>)
  {
    /** Every key occurs exactly once in the enumeration order. */
    ghost predicate Valid()
    {
      && Distinct(order)
      && (forall i :: 0 <= i < |order| ==> order[i] in entries)
      && (forall id :: id in entries ==> id in order)
    }

    /** `partition.get(id)` */
    function Get(id: ChatId): (r: Option<Record>)
      ensures r.Some? <==> id in entries
      ensures r.Some? ==> r.value == entries[id]
    {
      if id in entries then Some(entries[id]) else None
    }

    /** `partition[id] = rec`: overwrite in place, or append a new key. */
    function Put(id: ChatId, rec: Record): (p: Partition)
      ensures p.Get(id) == Some(rec)
      ensures forall other :: other != id ==> p.Get(other) == Get(other)
      ensures Valid() ==> p.Valid()
      ensures Valid() && id in entries ==> p.order == order
      ensures Valid() && id !in entries ==> p.order == order + [id]
    {
      Partition(if id in entries then order else order + [id], entries[id := rec])
    }

    /** `partition.values()`, in enumeration order. */
    function Values(): (vs: seq<Record>)
      requires Valid()
      ensures |vs| == |order| == |entries|
      ensures forall i :: 0 <= i < |order| ==> vs[i] == entries[order[i]]
      ensures forall id :: id in entries ==> entries[id] in vs
    {
      PartitionSize(this);
      var vs := seq(|order|, i requires 0 <= i < |order| => entries[order[i]]);
      assert forall id :: id in entries ==> entries[id] in vs by {
        forall id | id in entries ensures entries[id] in vs {
          var i :| 0 <= i < |order| && order[i] == id;
          assert vs[i] == entries[id];
        }
      }
      vs
    }
  }

  const EmptyPartition: Partition := Partition([], map[])

  /** The global `users` dictionary: `{"clients": {...}, "drivers": {...}}`. */
  datatype Users = Users(clients: Partition, drivers: Partition)
  {
    ghost predicate Valid()
    {
      clients.Valid() && drivers.Valid()
    }

    /** `users[role]` */
    function Part(role: Role): Partition
    {
      match role
      case Clients => clients
      case Drivers => drivers
    }

    /** The registry with `users[role]` replaced by `p`. */
    function With(role: Role, p: Partition): (u: Users)
      ensures u.Part(role) == p
      ensures u.Part(Opposite(role)) == Part(Opposite(role))
    {
      match role
      case Clients => Users(p, drivers)
      case Drivers => Users(clients, p)
    }

    /** `users[role].get(id)` */
    function Lookup(role: Role, id: ChatId): Option<Record>
    {
      Part(role).Get(id)
    }
  }

  const InitialUsers: Users := Users(EmptyPartition, EmptyPartition)

  /**
    The registry transition of a contact share (main.py, handle_contact):
    without a role in the session nothing changes; with one, the record under
    that role and chat id becomes `{phone, None, None}`, overwriting any record
    already there, and no other entry of either partition changes.
  */
  function ContactShared(u: Users, role: Option<Role>, id: ChatId, phone: string): (r: Users)
    ensures role.None? ==> r == u
    ensures role.Some? ==> r.Lookup(role.value, id) == Some(NewRecord(phone))
    ensures forall rl: Role, other: ChatId :: (role != Some(rl) || other != id) ==>
              r.Lookup(rl, other) == u.Lookup(rl, other)
    ensures u.Valid() ==> r.Valid()
  {
    match role
    case None => u
    case Some(rl) => u.With(rl, u.Part(rl).Put(id, NewRecord(phone)))
  }

  /**
    The registry transition of a location share (main.py, handle_location):
    only when a role is set and a record exists under it for the chat id does
    anything change, and then only that record's location.
  */
  function LocationShared(u: Users, role: Option<Role>, id: ChatId, loc: Location): (r: Users)
    ensures (role.None? || u.Lookup(role.value, id).None?) ==> r == u
    ensures role.Some? && u.Lookup(role.value, id).Some? ==>
              r.Lookup(role.value, id) == Some(u.Lookup(role.value, id).value.(location := Some(loc)))
    ensures forall rl: Role, other: ChatId :: (role != Some(rl) || other != id) ==>
              r.Lookup(rl, other) == u.Lookup(rl, other)
    ensures u.Valid() ==> r.Valid()
  {
    match role
    case None => u
    case Some(rl) =>
      match u.Part(rl).Get(id)
      case None => u
      case Some(rec) => u.With(rl, u.Part(rl).Put(id, rec.(location := Some(loc))))
  }

  /** A location share keeps the phone and the request of the record it updates. */
  lemma LocationKeepsPhoneAndRequest(u: Users, rl: Role, id: ChatId, loc: Location)
    requires u.Lookup(rl, id).Some?
    ensures var r := LocationShared(u, Some(rl), id, loc).Lookup(rl, id);
      && r.Some?
      && r.value.phone == u.Lookup(rl, id).value.phone
      && r.value.request == u.Lookup(rl, id).value.request
      && r.value.location == Some(loc)
  {
  }

  /** A location share does not move the record in the partition's enumeration order. */
  lemma LocationKeepsOrder(u: Users, role: Option<Role>, id: ChatId, loc: Location)
    requires u.Valid()
    ensures forall rl: Role :: LocationShared(u, role, id, loc).Part(rl).order == u.Part(rl).order
  {
  }

  /** Sharing the same location twice leaves the registry as sharing it once. */
  lemma LocationIdempotent(u: Users, role: Option<Role>, id: ChatId, loc: Location)
    ensures LocationShared(LocationShared(u, role, id, loc), role, id, loc) == LocationShared(u, role, id, loc)
  {
  }

  /** Sharing a contact again overwrites the record, so a stored location is forgotten. */
  lemma ContactResetsLocation(u: Users, rl: Role, id: ChatId, phone: string)
    requires u.Lookup(rl, id).Some? && u.Lookup(rl, id).value.location.Some?
    ensures ContactShared(u, Some(rl), id, phone).Lookup(rl, id).value.location.None?
  {
  }

  /** A list of distinct chat ids has as many elements as the set of its elements. */
  lemma {:induction false} DistinctCardinality(ids: seq<ChatId>)
    requires Distinct(ids)
    ensures |(set id | id in ids)| == |ids|
    decreases |ids|
  {
    if ids != [] {
      var init, last := ids[..|ids| - 1], ids[|ids| - 1];
      assert ids == init + [last];
      assert Distinct(init);
      DistinctCardinality(init);
      assert last !in init by {
        forall i | 0 <= i < |init| ensures init[i] != last {
          assert ids[i] == init[i];
        }
      }
      assert (set id | id in ids) == (set id | id in init) + {last};
    }
  }

  /** A partition holds as many entries as its enumeration order lists keys. */
  lemma PartitionSize(p: Partition)
    requires p.Valid()
    ensures |p.entries| == |p.order|
  {
    var listed := set id | id in p.order;
    forall id ensures id in p.entries.Keys <==> id in listed {
      if id in listed {
        var i :| 0 <= i < |p.order| && p.order[i] == id;
      }
    }
    assert p.entries.Keys == listed;
    DistinctCardinality(p.order);
  }
}
