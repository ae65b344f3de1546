/** The two persisted tables of the settings store, as values.
    `data.json` maps a device uuid to a record with an optional `alias` and
    an optional `token`; `dlna_servers.json` maps a location to a record with
    a `port`. A key that is absent reads as the empty record `{}`. */
module Tables {
  import opened Wrappers

  /** One entry of `data.json`. */
  datatype DeviceRecord = DeviceRecord(alias: Option<string>, token: Option<string>)

  /** One entry of `dlna_servers.json`. */
  datatype LocationRecord = LocationRecord(port: Option<int>)

  type DeviceTable = map<string, DeviceRecord>
  type LocationTable = map<string, LocationRecord>

  /** The uuid's record, or the empty record when the uuid is unknown. */
  function DeviceEntry(t: DeviceTable, uuid: string): (e: DeviceRecord)
    ensures uuid in t ==> e == t[uuid]
    ensures uuid !in t ==> e.alias.None? && e.token.None?
  {
    if uuid in t then t[uuid] else DeviceRecord(None, None)
  }

  /** The uuid's alias, or none when the uuid or its alias is missing. */
  function StoredAlias(t: DeviceTable, uuid: string): (r: Option<string>)
    ensures uuid !in t ==> r == None
    ensures uuid in t ==> r == t[uuid].alias
    ensures r.Some? ==> uuid in t && t[uuid].alias == r
  {
    DeviceEntry(t, uuid).alias
  }

  /** The uuid's token, or none when the uuid or its token is missing. */
  function StoredToken(t: DeviceTable, uuid: string): (r: Option<string>)
    ensures uuid !in t ==> r == None
    ensures uuid in t ==> r == t[uuid].token
    ensures r.Some? ==> uuid in t && t[uuid].token == r
  {
    DeviceEntry(t, uuid).token
  }

  /** The table after the alias upsert: the uuid's record (or an empty one)
      gets its alias set and is stored back, so its token is kept and no
      other entry changes. */
  function WithAlias(t: DeviceTable, uuid: string, alias: string): (t': DeviceTable)
    ensures t'.Keys == t.Keys + {uuid}
    ensures t'[uuid].alias == Some(alias) && t'[uuid].token == StoredToken(t, uuid)
    ensures forall u :: u in t && u != uuid ==> t'[u] == t[u]
  {
    t[uuid := DeviceEntry(t, uuid).(alias := Some(alias))]
  }

  /** The same upsert for the `token` field; the alias is kept. */
  function WithToken(t: DeviceTable, uuid: string, token: string): (t': DeviceTable)
    ensures t'.Keys == t.Keys + {uuid}
    ensures t'[uuid].token == Some(token) && t'[uuid].alias == StoredAlias(t, uuid)
    ensures forall u :: u in t && u != uuid ==> t'[u] == t[u]
  {
    t[uuid := DeviceEntry(t, uuid).(token := Some(token))]
  }

  /** Setting an alias is read back by `StoredAlias` for that uuid only, and
      never disturbs any token. */
  lemma WithAliasReadBack(t: DeviceTable, uuid: string, alias: string, u: string)
    ensures StoredAlias(WithAlias(t, uuid, alias), u)
            == if u == uuid then Some(alias) else StoredAlias(t, u)
    ensures StoredToken(WithAlias(t, uuid, alias), u) == StoredToken(t, u)
  {
  }

  /** Setting a token is read back by `StoredToken` for that uuid only, and
      never disturbs any alias. */
  lemma WithTokenReadBack(t: DeviceTable, uuid: string, token: string, u: string)
    ensures StoredToken(WithToken(t, uuid, token), u)
            == if u == uuid then Some(token) else StoredToken(t, u)
    ensures StoredAlias(WithToken(t, uuid, token), u) == StoredAlias(t, u)
  {
  }

  /** The location's port, or none when the location or its port is
      missing. */
  function StoredPort(t: LocationTable, location: string): (r: Option<int>)
    ensures location !in t ==> r == None
    ensures location in t ==> r == t[location].port
    ensures r.Some? ==> location in t && t[location].port == r
  {
    if location in t then t[location].port else None
  }

  /** The table after the port upsert: the location's record (or an empty
      one) gets its port set and is stored back; no other entry changes. */
  function WithPort(t: LocationTable, location: string, port: int): (t': LocationTable)
    ensures t'.Keys == t.Keys + {location}
    ensures t'[location].port == Some(port)
    ensures forall l :: l in t && l != location ==> t'[l] == t[l]
  {
    t[location := LocationRecord(Some(port))]
  }

  /** A saved port is read back for its location, and only there. */
  lemma WithPortReadBack(t: LocationTable, location: string, port: int, l: string)
    ensures StoredPort(WithPort(t, location, port), l)
            == if l == location then Some(port) else StoredPort(t, l)
  {
  }

  /** Saving the same port for the same location twice leaves the same
      table as saving it once. */
  lemma WithPortIdempotent(t: LocationTable, location: string, port: int)
    ensures WithPort(WithPort(t, location, port), location, port) == WithPort(t, location, port)
  {
  }

  /** Every location record carries a port, so reading the port of each
      record in the maximum loop cannot raise `KeyError`. */
  ghost predicate AllPorted(t: LocationTable)
  {
    forall l :: l in t ==> t[l].port.Some?
  }

  /** Tables built from the empty table by saving ports only are all ported. */
  lemma WithPortKeepsAllPorted(t: LocationTable, location: string, port: int)
    requires AllPorted(t)
    ensures AllPorted(WithPort(t, location, port))
  {
  }

  /** `m` is `max(d, every persisted port)`: at least `d`, at least every
      port, and equal to `d` or to one of the ports. */
  ghost predicate IsMaxPort(m: int, d: int, t: LocationTable)
  {
    && m >= d
    && (forall l :: l in t && t[l].port.Some? ==> m >= t[l].port.value)
    && (m == d || exists l :: l in t && t[l].port == Some(m))
  }

  /** The maximum is unique. */
  lemma MaxPortUnique(m1: int, m2: int, d: int, t: LocationTable)
    requires IsMaxPort(m1, d, t) && IsMaxPort(m2, d, t)
    ensures m1 == m2
  {
    if m1 != d {
      var l1 :| l1 in t && t[l1].port == Some(m1);
      assert m2 >= m1;
    }
    if m2 != d {
      var l2 :| l2 in t && t[l2].port == Some(m2);
      assert m1 >= m2;
    }
  }

  /** Once the maximum is taken as the new default, taking the maximum again
      over the same table changes nothing. */
  lemma MaxPortStable(m: int, d: int, t: LocationTable)
    requires IsMaxPort(m, d, t)
    ensures IsMaxPort(m, m, t)
  {
  }

  /** Saving a port that does not lower the location's previous port moves
      the maximum to the larger of the old maximum and the saved port. */
  lemma MaxPortAfterSave(m: int, d: int, t: LocationTable, location: string, port: int)
    requires IsMaxPort(m, d, t)
    requires StoredPort(t, location).None? || StoredPort(t, location).value <= port
    ensures IsMaxPort(if port > m then port else m, d, WithPort(t, location, port))
  {
    var t' := WithPort(t, location, port);
    if port < m && m != d {
      var l :| l in t && t[l].port == Some(m);
      assert l != location;
      assert t'[l].port == Some(m);
    }
  }

  /** After a port is saved for some location, the maximum is at least that
      port. */
  lemma MaxPortCoversSaved(m: int, d: int, t: LocationTable, location: string, port: int)
    requires IsMaxPort(m, d, WithPort(t, location, port))
    ensures m >= port
  {
  }
}
