/**
  The bot's handlers as steps of one object: the registry's two partitions,
  which main.py keeps in the global `users`, and the role each chat chose,
  which main.py keeps in the chat's session data (`context.user_data`).
  Each handler is one sequential step; replies are returned, not sent.
*/
module Bot {
  import opened Wrappers
  import opened Registry
  import opened Matcher
  import opened Text

  /** The two buttons offered by /start; the role handler only receives these texts. */
  const ClientButton: string := "Mijoz"
  const DriverButton: string := "Haydovchi"

  /** `'clients' if text == "Mijoz" else 'drivers'` */
  function SelectRole(text: string): (r: Role)
    ensures r == Clients <==> text == ClientButton
  {
    if text == ClientButton then Clients else Drivers
  }

  /** The role name the registration reply shows. */
  function RoleLabel(role: Role): (s: string)
    ensures s == ClientButton <==> role == Clients
  {
    if role == Clients then ClientButton else DriverButton
  }

  /** The reply to a button names the role chosen with that button. */
  lemma RoleLabelOfButton(text: string)
    requires text == ClientButton || text == DriverButton
    ensures RoleLabel(SelectRole(text)) == text
  {
  }

  /** The replies of the broadcast command. */
  datatype BroadcastOutcome =
    | NotAdmin                                  // only the admin may broadcast
    | EmptyAdvertisement                        // the text after the command is blank
    | Broadcast(message: string, count: nat)    // `count` sends succeeded

  /**
    The chat ids enumerated by `for group in groups: for user_id in users[group]`,
    in that order.
  */
  function Enumerate(u: Users, groups: seq<Role>): (ids: seq<ChatId>)
    decreases |groups|
  {
    if groups == [] then []
    else Enumerate(u, groups[..|groups| - 1]) + u.Part(groups[|groups| - 1]).order
  }

  /** The groups main.py broadcasts to, in its order. */
  const BroadcastGroups: seq<Role> := [Clients, Drivers]

  /** A broadcast enumerates every client, then every driver. */
  lemma EnumerateBroadcastGroups(u: Users)
    ensures Enumerate(u, BroadcastGroups[..|BroadcastGroups|]) == u.clients.order + u.drivers.order
  {
    assert BroadcastGroups[..2] == [Clients, Drivers];
    assert [Clients, Drivers][..1] == [Clients];
    assert [Clients][..0] == [];
  }

  /**
    The recipients a broadcast reaches when the send attempt numbered `k`
    (counting from 0 across both partitions) succeeds exactly if `deliver(k)`.
  */
  function Reached(ids: seq<ChatId>, deliver: nat -> bool): (r: seq<ChatId>)
    ensures |r| <= |ids|
    ensures forall id :: id in r ==> id in ids
    decreases |ids|
  {
    if ids == [] then []
    else
      var last := |ids| - 1;
      Reached(ids[..last], deliver) + (if deliver(last) then [ids[last]] else [])
  }

  /** When every send succeeds, every enumerated chat id is reached, in order. */
  lemma {:induction false} AllDeliveredReachesAll(ids: seq<ChatId>, deliver: nat -> bool)
    requires forall k: nat :: k < |ids| ==> deliver(k)
    ensures Reached(ids, deliver) == ids
    decreases |ids|
  {
    if ids != [] {
      AllDeliveredReachesAll(ids[..|ids| - 1], deliver);
    }
  }

  /** When every send fails, nobody is reached. */
  lemma {:induction false} NoneDeliveredReachesNone(ids: seq<ChatId>, deliver: nat -> bool)
    requires forall k: nat :: k < |ids| ==> !deliver(k)
    ensures Reached(ids, deliver) == []
    decreases |ids|
  {
    if ids != [] {
      NoneDeliveredReachesNone(ids[..|ids| - 1], deliver);
    }
  }

  /**
    The nested loop of send_advertisement: one send attempt per chat id of
    `clients`, then of `drivers`, counting the attempts that succeed.
  */
  method SendToAll(users: Users, deliver: nat -> bool) returns (sent: nat, sentTo: seq<ChatId>)
    ensures sentTo == Reached(users.clients.order + users.drivers.order, deliver)
    ensures sent == |sentTo| <= |users.clients.order| + |users.drivers.order|
  {
    sent, sentTo := 0, [];
    var attempt: nat := 0;
    ghost var attempted: seq<ChatId> := [];
    for g := 0 to |BroadcastGroups|
      invariant attempted == Enumerate(users, BroadcastGroups[..g])
      invariant attempt == |attempted|
      invariant sentTo == Reached(attempted, deliver) && sent == |sentTo|
    {
      var ids := users.Part(BroadcastGroups[g]).order;
      ghost var before := attempted;
      for i := 0 to |ids|
        invariant attempted == before + ids[..i]
        invariant attempt == |attempted|
        invariant sentTo == Reached(attempted, deliver) && sent == |sentTo|
      {
        assert (attempted + [ids[i]])[..attempt] == attempted;
        if deliver(attempt) {
          sentTo := sentTo + [ids[i]];
          sent := sent + 1;
        }
        assert ids[..i + 1] == ids[..i] + [ids[i]];
        attempted := attempted + [ids[i]];
        attempt := attempt + 1;
      }
      assert BroadcastGroups[..g + 1][..g] == BroadcastGroups[..g];
      assert ids[..|ids|] == ids;
    }
    EnumerateBroadcastGroups(users);
  }

  class Bot {
    var clients: Partition
    var drivers: Partition
    /** The role each chat selected last (the session's `"role"` entry). */
    var roles: map<ChatId, Role>
    /** `ADMIN_CHAT_ID` */
    const adminId: ChatId

    ghost predicate Valid()
      reads this
    {
      Snapshot().Valid()
    }

    /** The registry as one value. */
    function Snapshot(): (u: Users)
      reads this
      ensures u.clients == clients && u.drivers == drivers
    {
      Users(clients, drivers)
    }

    /** `context.user_data.get("role")` */
    function RoleOf(id: ChatId): (r: Option<Role>)
      reads this
      ensures r.Some? <==> id in roles
      ensures r.Some? ==> r.value == roles[id]
    {
      if id in roles then Some(roles[id]) else None
    }

    /** Start-up: both partitions empty, no chat has chosen a role. */
    constructor (adminId: ChatId)
      ensures Valid() && Snapshot() == InitialUsers && roles == map[]
      ensures this.adminId == adminId
    {
      clients := EmptyPartition;
      drivers := EmptyPartition;
      roles := map[];
      this.adminId := adminId;
    }

    /** main.py, register_user: the role goes to the session only, never to the registry. */
    method RegisterUser(id: ChatId, text: string)
      modifies this`roles
      ensures roles == old(roles)[id := SelectRole(text)]
      ensures clients == old(clients) && drivers == old(drivers)
    {
      roles := roles[id := SelectRole(text)];
    }

    /** main.py, handle_contact */
    method HandleContact(id: ChatId, phone: string)
      requires Valid()
      modifies this`clients, this`drivers
      ensures Valid()
      ensures Snapshot() == ContactShared(old(Snapshot()), RoleOf(id), id, phone)
    {
      if id in roles {
        var rec := NewRecord(phone);
        match roles[id] {
          case Clients => clients := clients.Put(id, rec);
          case Drivers => drivers := drivers.Put(id, rec);
        }
      }
    }

    /**
      main.py, handle_location, followed by show_nearby_drivers for a client or
      show_nearby_clients for a driver. Nothing happens and nothing is replied
      (None) without a role or without a record under it; otherwise the record's
      location is replaced and the querier gets the matcher's outcome, which
      can never be the location error since the location was just stored.
    */
    method HandleLocation(id: ChatId, loc: Location, dist: (Location, Location) -> real)
      returns (reply: Option<NearbyOutcome>)
      requires Valid()
      modifies this`clients, this`drivers
      ensures Valid()
      ensures Snapshot() == LocationShared(old(Snapshot()), RoleOf(id), id, loc)
      ensures reply.Some? <==> RoleOf(id).Some? && old(Snapshot()).Lookup(RoleOf(id).value, id).Some?
      ensures reply.Some? ==> reply.value == NearbyFor(Snapshot(), RoleOf(id).value, id, dist)
      ensures reply.Some? ==> reply.value != LocationUnknown
    {
      reply := None;
      if id in roles {
        var role := roles[id];
        var found := Snapshot().Part(role).Get(id);
        if found.Some? {
          var rec := found.value.(location := Some(loc));
          match role {
            case Clients => clients := clients.Put(id, rec);
            case Drivers => drivers := drivers.Put(id, rec);
          }
          reply := Some(NearbyFor(Snapshot(), role, id, dist));
        }
      }
    }

    /**
      main.py, send_advertisement: only the admin may broadcast; the text from
      position 11 on is stripped and refused when blank (this loses two
      characters of the message, see `Text.AdTextAsWritten`); otherwise every chat id
      of `clients`, then of `drivers`, is sent the message and the successful
      sends are counted. Send attempt `k` succeeds exactly if `deliver(k)`.
    */
    method SendAdvertisement(id: ChatId, text: string, deliver: nat -> bool)
      returns (outcome: BroadcastOutcome, sentTo: seq<ChatId>)
      requires Valid()
      ensures id != adminId ==> outcome == NotAdmin && sentTo == []
      ensures id == adminId && AdTextAsWritten(text) == [] ==> outcome == EmptyAdvertisement && sentTo == []
      ensures id == adminId && AdTextAsWritten(text) != [] ==>
                outcome == Broadcast(AdTextAsWritten(text), |sentTo|)
                && sentTo == Reached(clients.order + drivers.order, deliver)
      ensures |sentTo| <= |clients.entries| + |drivers.entries|
    {
      sentTo := [];
      if id != adminId {
        return NotAdmin, sentTo;
      }
      var message := AdTextAsWritten(text);
      if message == [] {
        return EmptyAdvertisement, sentTo;
      }
      var sent: nat;
      sent, sentTo := SendToAll(Snapshot(), deliver);
      PartitionSize(clients);
      PartitionSize(drivers);
      outcome := Broadcast(message, sent);
    }
  }

  /**
    A chat that picks one role, shares its contact, then picks the other role
    and shares its contact again ends up with a record in both partitions: the
    registry does not keep a chat id in one partition only.
  */
  method RoleSwitchScenario(bot: Bot, id: ChatId, phone: string)
    requires bot.Valid()
    modifies bot
    ensures bot.Valid()
    ensures bot.clients.Get(id) == Some(NewRecord(phone))
    ensures bot.drivers.Get(id) == Some(NewRecord(phone))
  {
    bot.RegisterUser(id, ClientButton);
    bot.HandleContact(id, phone);
    bot.RegisterUser(id, DriverButton);
    bot.HandleContact(id, phone);
  }
}
