# Settings store of a Plex DLNA player host

This project models the `Settings` object of the Plex DLNA player host.
`Settings` holds an in-memory configuration and two small key-value tables
that the Python code keeps as JSON files:

- `data.json` maps a device uuid to a record with an optional `alias` and an optional `token`;
- `dlna_servers.json` maps a DLNA server location to a record holding its `port`.

The model replaces each file with a map-valued field of the `Settings` class
(`devices`, `locations`). Loading a table reads the field. A missing file is
the empty map the constructor starts with. Saving a table replaces the field.
On top of this, the model covers three pieces of logic:

- **display-name resolution** (`dlna_name_alias`): a persisted alias wins;
  otherwise the first `key:value` rule, in the comma-separated rule string,
  whose stripped key equals the stripped uuid, name or ip gives its stripped
  value; otherwise the name. A rule scanned before a match that does not
  split into exactly two parts on `:` is an error (`ValueError` in Python,
  `Failure(MalformedRule(rule))` here);
- **upserts** of one field of one record: alias, token, port. Each leaves
  every other field and record alone;
- **port allocation**: the maximum of the base port and every persisted
  port, plus one, appended to `device_ports`. A location record without a
  port makes the Python loop raise `KeyError`; here that is
  `Failure(MissingPort)`, with the object unchanged.

Files:

- `wrappers.dfy`: `Option` and `Result`.
- `text.dfy`: Python's `str.strip()` and `str.split(sep)`, with their
  characterising lemmas.
- `tables.dfy`: the two tables as values, their upserts and reads, and the
  maximum-port predicate.
- `alias_rules.dfy`: the rule scan and the display-name function.
- `settings.dfy`: the `Settings` class.

Two behaviours of the code are kept as written:

- `allocate_new_port` stores the maximum into `base_port` but never stores
  the port it hands out. So two allocations with no location saved in
  between return the same port (`SettingsStore.AllocateTwiceWithoutSaving`).
  One might expect 32490 and then 32491 from a fresh store; the code
  returns 32490 twice, and the model follows the code.
- `dlna_name_alias` reads the rule string from the module-level singleton,
  not from `self`. The model reads the object's own `aliases` field. For the
  single instance the program creates, these are the same.

## Model

| member | source | states |
|---|---|---|
| `Text.Strip` | settings/__init__.py:32-33 | the result has no white space at either end, and the input is the result with only white space (Python's `isspace` set) before and after it |
| `Text.StripUnique` | settings/__init__.py:32-33 | stripping is determined by that contract: a trimmed string surrounded by any white space strips back to itself |
| `Text.StripTrimmed` | settings/__init__.py:32-33 | a string with no white space at either end is unchanged by stripping |
| `Text.StripIdempotent` | settings/__init__.py:32-33 | stripping twice equals stripping once |
| `Text.Split` | settings/__init__.py:29-31 | `split(sep)` gives at least one part, and no part contains the separator |
| `Text.SplitJoin` | settings/__init__.py:29-31 | joining the parts of a split with the separator gives back the original string |
| `Text.JoinSplit` | settings/__init__.py:29-31 | separator-free parts, joined and split again, come back unchanged |
| `Text.SplitCount` | settings/__init__.py:29-31 | a string splits into one part more than it has separators |
| `AliasRules.ParseRule` | settings/__init__.py:31 | a rule unpacks into key and value exactly when it holds one colon; the rule is then key, colon, value; otherwise the error names the rule |
| `AliasRules.ParseRuleOf` | settings/__init__.py:31 | unpacking inverts writing `key:value` for colon-free key and value |
| `AliasRules.KeyMatches` | settings/__init__.py:32 | a key selects a device exactly when, stripped, it equals the stripped uuid, name or ip |
| `AliasRules.ResolveRules` | settings/__init__.py:30-34 | the scan's error always names one of the scanned rules, and a result other than the default name has no white space at either end |
| `AliasRules.FirstDecidingRuleWins` | settings/__init__.py:29-33 | when rule i is the first rule that is malformed or whose stripped key equals the stripped uuid, name or ip, the scan gives that rule's error or stripped value |
| `AliasRules.NoDecidingRuleGivesName` | settings/__init__.py:29-34 | when every rule is well formed and none matches, the scan gives the name unchanged |
| `AliasRules.ResolveRulesOrigin` | settings/__init__.py:29-34 | conversely, every scan result is the name or the value or error of some deciding rule |
| `AliasRules.NameAlias` | settings/__init__.py:22-34 | priority rule: a persisted alias is returned; else an empty rule string gives the name; else the rule scan over the comma-split string decides |
| `AliasRules.PersistedAliasWins` | settings/__init__.py:22-26 | with a persisted alias the result does not depend on the rule string, the name or the ip |
| `AliasRules.SavedAliasIsDisplayed` | settings/__init__.py:22-41 | after saving an alias for a uuid, that uuid's display name is the alias |
| `Tables.DeviceEntry` | settings/__init__.py:38 | a known uuid gives its own record; an unknown uuid gives the empty record, with neither alias nor token |
| `Tables.StoredAlias` | settings/__init__.py:24 | an absent uuid has no alias; a present uuid gives exactly the alias in its record, if any |
| `Tables.StoredToken` | settings/__init__.py:77-79 | an absent uuid has no token; a present uuid gives exactly the token in its record, if any |
| `Tables.WithAlias` | settings/__init__.py:36-41 | the uuid gains or keeps a record whose alias is set and whose token is kept; the keys grow by at most that uuid; every other record is unchanged |
| `Tables.WithToken` | settings/__init__.py:81-86 | the same upsert for the token, keeping the alias |
| `Tables.WithAliasReadBack` | settings/__init__.py:36-41 | after setting an alias, it reads back for that uuid, other uuids' aliases read as before, and no token changes |
| `Tables.WithTokenReadBack` | settings/__init__.py:77-86 | after setting a token, it reads back for that uuid, other uuids' tokens read as before, and no alias changes |
| `Tables.StoredPort` | settings/__init__.py:43-46 | an absent location has no port; a present location gives exactly the port in its record, if any |
| `Tables.WithPort` | settings/__init__.py:50-55 | the location's record gets the port; the keys grow by at most that location; every other record is unchanged |
| `Tables.WithPortReadBack` | settings/__init__.py:43-55 | a saved port reads back for its location, and every other location reads as before |
| `Tables.WithPortIdempotent` | settings/__init__.py:50-55 | saving the same port for the same location twice gives the same table as saving it once |
| `Tables.WithPortKeepsAllPorted` | settings/__init__.py:50-55 | saving a port keeps every location record ported, so tables written only this way never make the maximum loop raise |
| `Tables.MaxPortUnique` | settings/__init__.py:95-101 | at most one value is at least the default and every port while being the default or one of the ports |
| `Tables.MaxPortStable` | settings/__init__.py:88-93 | the maximum, taken as the new default over the same table, is again the maximum |
| `Tables.MaxPortAfterSave` | settings/__init__.py:95-101 | saving a port that does not lower its location's previous port makes the maximum the larger of the old maximum and that port |
| `Tables.MaxPortCoversSaved` | settings/__init__.py:95-101 | after a port is saved, the maximum is at least that port |
| `SettingsStore.Settings.constructor` | settings/__init__.py:10-20 | empty rule string, base port 32489, no allocated ports, both tables empty |
| `SettingsStore.Settings.DlnaNameAlias` | settings/__init__.py:22-34 | the loop returns exactly `NameAlias` of the device table and the rule string |
| `SettingsStore.Settings.SaveDlnaNameAlias` | settings/__init__.py:36-41 | the device table becomes the alias upsert of the old table; nothing else changes |
| `SettingsStore.Settings.LoadDlnaLocationPort` | settings/__init__.py:43-46 | no port for an unknown location; otherwise exactly the port stored in its record, if any |
| `SettingsStore.Settings.LoadDlnaLocations` | settings/__init__.py:47-48 | the whole location table, key for key |
| `SettingsStore.Settings.SaveDlnaLocationPort` | settings/__init__.py:50-55 | the location table becomes the port upsert of the old table; nothing else changes |
| `SettingsStore.Settings.GetTokenForUuid` | settings/__init__.py:77-79 | no token for an unknown uuid; otherwise exactly the token stored in its record, if any |
| `SettingsStore.Settings.SetTokenForUuid` | settings/__init__.py:81-86 | the device table becomes the token upsert of the old table, and the token reads back |
| `SettingsStore.Settings.AllocateNewPort` | settings/__init__.py:88-93 | fails, changing nothing, exactly when some location lacks a port; otherwise the base port becomes max(old base port, every port), so it never decreases; the result is one more, is above the old base port and every port, and is appended to the allocated ports |
| `SettingsStore.Settings.GetMaxPortFromSettings` | settings/__init__.py:95-101 | fails exactly when some location record lacks a port; otherwise returns the maximum of the default and every persisted port |
| `SettingsStore.AllocateTwiceWithoutSaving` | settings/__init__.py:88-93 | two allocations with no save in between return the same port |
| `SettingsStore.AllocateSaveAllocate` | settings/__init__.py:88-93 | after a successful allocation whose port is saved for a location, the next allocation also succeeds and returns a strictly larger port |

## Left out

- File handling in `load_data`/`save_data` (settings/__init__.py:57-75) is not modelled: path joining, directory creation, `touch`, JSON parsing and 4-space JSON output. A missing file is the empty table the constructor starts with. A corrupt file, read as `{}` by the Python code, is not modelled, so the model has no "file became unreadable" event. Writing then reading a table is the identity.
- The JSON tables are typed here. A record's `alias` and `token` are strings and `port` is an integer; other keys in a record, `null` values and values of other JSON types are not represented. A record whose `port` is JSON `null` behaves like a missing port, which differs from Python: there `None > int` raises `TypeError` instead of `KeyError`. Both are errors in Python; the model reports both as `MissingPort`.
- The pydantic environment and config-file loading, and the plain fields with no behaviour (`http_port`, `host_ip`, `product`, `location_url`, `version`, `platform`, `platform_version`, `config_path`, the two file names), are not modelled.
- `plex_notify_interval` is a float that no modelled logic reads, so it is not modelled.
- The module-level singleton `settings`, whether `device_ports` is shared between instances, and races between processes on the JSON files are not modelled. The model is one object used sequentially.
- `SettingsStore.Settings.DlnaNameAlias` reads `this.aliases`; the Python code reads the singleton's `aliases` (settings/__init__.py:27,29).
- Ports are unbounded integers. The Python code puts no bound on them either, so the model does not bound them at 65535.
