# Taxi bot registry and proximity matcher

A model of the core of a Telegram taxi bot (`main.py`). The bot keeps an
in-memory registry `users` with two partitions, `clients` and `drivers`. Each
partition maps a chat id to a record `{phone, location, request}`. On top of
the registry sit a proximity matcher, which lists the counterparts within
10 km of a querier, and an admin broadcast, which counts successful sends.

Modules:

- `Wrappers` (`wrappers.dfy`): `Option`, standing for Python's `None`.
- `Registry` (`registry.dfy`): roles, locations, records and partitions.
  A partition is an ordered dictionary: the key order plus the map of entries.
  Python dictionaries enumerate keys in insertion order. Overwriting a key
  keeps its position; a new key goes last. The registry transitions of a
  contact share and a location share are functions with their properties.
- `Matcher` (`matcher.dfy`): the list comprehension of `show_nearby_drivers`
  and `show_nearby_clients`, the three replies (location error, none nearby,
  list), and the characterisation of what is kept and in which order.
  The geodesic distance is a parameter `dist`.
- `Text` (`text.dfy`): Python's `str.strip()` and `s[n:]`, the extraction of
  the advertisement text as written (`text[11:].strip()`), which the handler
  uses, and the corrected extraction beside it (see Findings).
- `Bot` (`bot.dfy`): the class `Bot` whose fields are the two partitions and
  the role each chat chose. Its methods are the handlers `register_user`,
  `handle_contact`, `handle_location` (followed by the matcher) and
  `send_advertisement`; the nested send loop is the method `SendToAll`.

Behaviour of the code worth stating, which the model follows:

- Choosing a role creates no record; only the contact share does.
- A contact share overwrites the whole record, so the phone is not
  immutable and a stored location is reset.
- Nothing keeps a chat id in one partition only: choosing the other role and
  sharing the contact again leaves a record in both (`Bot.RoleSwitchScenario`).
- Matches come in partition order, unsorted, and the radius is the constant 10.

## Model

| member | source | states |
|---|---|---|
| `Registry.Opposite` | main.py:66-92 | a querier is matched against the other partition, never its own |
| `Registry.Partition.Put` | main.py:33 | assignment stores the record under the key, changes no other key, keeps the key order for an existing key and appends a new key |
| `Registry.Partition.Values` | main.py:71 | `values()` lists one record per key: as many records as the partition has entries, every entry's record among them, in enumeration order |
| `Registry.ContactShared` | main.py:29-33 | without a role nothing changes; with one, the record under that role and chat id becomes `{phone, None, None}` and every other entry of both partitions is unchanged |
| `Registry.LocationShared` | main.py:39-45 | the registry changes only with a role set and a record present, and then only that record's location |
| `Registry.LocationKeepsPhoneAndRequest` | main.py:45 | a location share keeps the phone and request of the record and stores the new location |
| `Registry.LocationKeepsOrder` | main.py:45 | a location share does not move any record in either partition's enumeration order |
| `Registry.LocationIdempotent` | main.py:45 | sharing the same location twice leaves the same registry as sharing it once |
| `Registry.ContactResetsLocation` | main.py:33 | sharing a contact again forgets a previously stored location |
| `Registry.PartitionSize` | main.py:104-105 | a partition has as many entries as the loop over it visits keys |
| `Matcher.Within` | main.py:71 | a record is kept only if it has a location, and never when its distance is 10 or more |
| `Matcher.Filter` | main.py:69-72 | every listed counterpart is strictly within the radius of the querier |
| `Matcher.FilterKeepsExactlyInOrder` | main.py:69-71 | the comprehension keeps exactly the records that have a location within the radius, in enumeration order (also main.py:83-85) |
| `Matcher.BoundaryExcluded` | main.py:71 | a record at distance exactly 10 is not kept |
| `Matcher.ShowNearby` | main.py:66-78 | the location error happens exactly when the querier has no location; "none nearby" exactly when no counterpart is within the radius; otherwise a non-empty list of the kept records |
| `Matcher.NearbyFor` | main.py:80-92 | the querier's own stored location decides the location error; the counterparts are the opposite partition's records |
| `Matcher.Listed` | main.py:83-86 | a counterpart with a location within the radius appears in the querier's list |
| `Matcher.MutualInclusion` | main.py:66-92 | with a symmetric distance, a client and a driver within the radius each appear in the other's list |
| `Text.TrimStart` | main.py:99 | `lstrip` cuts only leading whitespace and leaves none |
| `Text.TrimEnd` | main.py:99 | `rstrip` cuts only trailing whitespace and leaves none |
| `Text.StripIsTrimmedInfix` | main.py:99 | `strip` returns a contiguous part of its argument with only whitespace cut on either side |
| `Text.StripHasNoOuterSpace` | main.py:99 | what `strip` returns neither starts nor ends with whitespace |
| `Text.StripEmptyIff` | main.py:99-100 | the stripped text is empty exactly when the text is all whitespace |
| `Text.AdTextAsWritten` | main.py:99-100 | `text[11:].strip()` is empty exactly when the text has at most 11 characters or only whitespace after position 11 |
| `Text.AsWrittenDropsTwoCharacters` | main.py:99 | as written, the text sent for "/reklama " + m is m stripped after losing its first two characters |
| `Text.AsWrittenRefusesShortAdvertisement` | main.py:99-102 | as written, a non-blank two-character advertisement is refused as empty |
| `Text.AsWrittenTruncatesAdvertisement` | main.py:99 | as written, a longer advertisement is sent without its first two characters |
| `Text.DropCommandWord` | main.py:99 | the cut removes only non-whitespace characters and stops at the first whitespace, which the rest starts with |
| `Text.AdText` | main.py:99 | the corrected extraction is empty exactly when everything after the command word is whitespace |
| `Text.AdTextOfCommand` | main.py:99 | the corrected extraction returns the stripped text after any command word |
| `Bot.SelectRole` | main.py:22 | the role is `clients` exactly for the text "Mijoz", `drivers` for any other text |
| `Bot.RoleLabel` | main.py:25 | the reply names "Mijoz" exactly for `clients` |
| `Bot.RoleLabelOfButton` | main.py:17-25 | for either button, the reply names the button pressed |
| `Bot.Reached` | main.py:104-108 | the chat ids reached are among those enumerated and no more of them |
| `Bot.AllDeliveredReachesAll` | main.py:104-108 | when every send succeeds, every enumerated chat id is reached, in order |
| `Bot.NoneDeliveredReachesNone` | main.py:106-110 | when every send fails, nobody is reached |
| `Bot.EnumerateBroadcastGroups` | main.py:104-105 | the broadcast enumerates every client, then every driver |
| `Bot.SendToAll` | main.py:103-108 | the counter equals the number of successful sends, over all clients then all drivers, and is at most the number of attempts |
| `Bot.Bot.constructor` | main.py:11 | the registry starts with both partitions empty |
| `Bot.Bot.RegisterUser` | main.py:21-23 | choosing a role changes only the chat's session role, never the registry |
| `Bot.Bot.HandleContact` | main.py:29-33 | the registry becomes the contact-share transition of the old one under the chat's session role |
| `Bot.Bot.HandleLocation` | main.py:39-50 | the registry becomes the location-share transition; the querier gets a reply exactly when a record was updated, that reply is the matcher's and never the location error |
| `Bot.Bot.SendAdvertisement` | main.py:97-113 | a non-admin is refused with no sends; a text that is blank after `text[11:].strip()` is refused with no sends; otherwise that text is broadcast and the reported count is the number of successful sends, at most the number of entries in both partitions |
| `Bot.RoleSwitchScenario` | main.py:21-33 | a chat that registers as client then as driver ends up with a record in both partitions |

## Left out

- The Telegram API: updates, replies, keyboards, handler registration and polling. Each handler is one sequential step returning its reply.
- async/await and `nest_asyncio`: handlers are not interleaved.
- The geodesic distance of geopy: it is the parameter `dist`, and no property of it is assumed except symmetry in `Matcher.MutualInclusion`.
- `TOKEN` and `ADMIN_CHAT_ID` from the environment: the admin id is a constructor argument.
- The Markdown and Google Maps text of the result lines: the matcher returns phone and location of each match.
- `context.bot.send_message` and its exceptions: send attempt `k` succeeds exactly when the parameter `deliver(k)` holds; the error printout is not modelled.
- The `/start` greeting: it only shows the two role buttons.
- `context.user_data` is per user; the model keys it by chat id, which is the same in a private chat.
- Floating point: coordinates and distances are reals.

## Findings

| source | as written | input that shows it | evidently intended | confidence | as-written member | corrected member |
|---|---|---|---|---|---|---|
| main.py:99 | `text[11:].strip()` drops 11 characters, but the command prefix "/reklama " is 9 characters long (11 is the length of "/advertise ") | "/reklama Hi" is refused as empty; "/reklama Salom" broadcasts "lom" | broadcast the text after the command word, stripped | high, not executed | `Text.AsWrittenRefusesShortAdvertisement` | `Text.AdTextOfCommand` |
