/** The `Settings` object of the DLNA player host. The two JSON files it
    reads and rewrites on every call are held as the map fields `devices`
    (`data.json`) and `locations` (`dlna_servers.json`): loading a table
    reads the field, saving it replaces the field. */
module SettingsStore {
  import opened Wrappers
  import opened Text
  import opened Tables
  import opened AliasRules

  /** The Python loop raises `KeyError` on a location record without a port. */
  datatype PortError = MissingPort

  const DefaultBasePort: int := 32489

  class Settings {
    /** Comma-separated `key:value` rules. The Python method reads the
        module-level singleton's `aliases`, not `self.aliases`; for the one
        instance the program creates these are the same field. */
    var aliases: string
    /** The high-water mark from which the next port is derived. */
    var basePort: int
    /** Every port handed out by `AllocateNewPort`, in order. */
    var devicePorts: seq<int>
    /** `data.json`: uuid to alias and token. */
    var devices: DeviceTable
    /** `dlna_servers.json`: location to port. */
    var locations: LocationTable

    /** The defaults, with neither file present yet. */
    constructor ()
      ensures aliases == "" && basePort == DefaultBasePort && devicePorts == []
      ensures devices == map[] && locations == map[]
    {
      aliases := "";
      basePort := DefaultBasePort;
      devicePorts := [];
      devices := map[];
      locations := map[];
    }

    /** The display name of a device: its persisted alias, else the value of
        the first rule whose key is its uuid, name or ip, else `name`. A
        malformed rule met before a match is an error. */
    method DlnaNameAlias(uuid: string, name: string, ip: string) returns (r: Result<string, AliasError>)
      ensures r == NameAlias(devices, aliases, uuid, name, ip)
    {
      var data := devices;
      var alias := StoredAlias(data, uuid);
      if alias.Some? {
        return Success(alias.value);
      }
      if aliases == "" {
        return Success(name);
      }
      var rules := Split(aliases, ',');
      var i := 0;
      while i < |rules|
        invariant 0 <= i <= |rules|
        invariant ResolveRules(rules[i..], uuid, name, ip) == ResolveRules(rules, uuid, name, ip)
      {
        assert rules[i..][1..] == rules[i + 1..];
        var parsed := ParseRule(rules[i]);
        if parsed.Failure? {
          return Failure(parsed.error);
        }
        var (k, v) := parsed.value;
        if KeyMatches(k, uuid, name, ip) {
          return Success(Strip(v));
        }
        i := i + 1;
      }
      return Success(name);
    }

    /** Persists `alias` for `uuid`, keeping its token and every other
        device. */
    method SaveDlnaNameAlias(uuid: string, alias: string)
      modifies this`devices
      ensures devices == WithAlias(old(devices), uuid, alias)
    {
      var data := devices;
      var info := DeviceEntry(data, uuid);
      info := info.(alias := Some(alias));
      data := data[uuid := info];
      devices := data;
    }

    /** The persisted port of `location`, or `None` when it has none. */
    function LoadDlnaLocationPort(location: string): (r: Option<int>)
      reads this
      ensures location !in locations ==> r == None
      ensures r.Some? ==> location in locations && locations[location].port == r
      ensures location in locations && locations[location].port.Some? ==> r.Some?
    {
      StoredPort(locations, location)
    }

    /** The whole location table as persisted. */
    function LoadDlnaLocations(): (r: LocationTable)
      reads this
      ensures r.Keys == locations.Keys
      ensures forall l :: l in r ==> r[l] == locations[l]
    {
      locations
    }

    /** Persists `port` for `location`, leaving every other location as it
        was. */
    method SaveDlnaLocationPort(location: string, port: int)
      modifies this`locations
      ensures locations == WithPort(old(locations), location, port)
    {
      var data := locations;
      var info := if location in data then data[location] else LocationRecord(None);
      info := info.(port := Some(port));
      data := data[location := info];
      locations := data;
    }

    /** The persisted token of `uuid`, or `None` when it has none. */
    function GetTokenForUuid(uuid: string): (r: Option<string>)
      reads this
      ensures uuid !in devices ==> r == None
      ensures r.Some? ==> uuid in devices && devices[uuid].token == r
      ensures uuid in devices && devices[uuid].token.Some? ==> r.Some?
    {
      StoredToken(devices, uuid)
    }

    /** Persists `token` for `uuid`, keeping its alias and every other
        device. */
    method SetTokenForUuid(uuid: string, token: string)
      modifies this`devices
      ensures devices == WithToken(old(devices), uuid, token)
      ensures GetTokenForUuid(uuid) == Some(token)
    {
      var d := devices;
      var info := DeviceEntry(d, uuid);
      info := info.(token := Some(token));
      d := d[uuid := info];
      devices := d;
    }

    /** A fresh port: the base port becomes the maximum of itself and every
        persisted port, and one more than that is handed out and recorded.
        The base port is not advanced to the port handed out. */
    method AllocateNewPort() returns (r: Result<int, PortError>)
      modifies this`basePort, this`devicePorts
      ensures r.Failure? <==> !AllPorted(locations)
      ensures r.Failure? ==> basePort == old(basePort) && devicePorts == old(devicePorts)
      ensures r.Success? ==> && IsMaxPort(basePort, old(basePort), locations)
                             && r.value == basePort + 1
                             && devicePorts == old(devicePorts) + [r.value]
      ensures r.Success? ==> && basePort >= old(basePort)
                             && r.value > old(basePort)
                             && forall l :: l in locations && locations[l].port.Some?
                                            ==> r.value > locations[l].port.value
    {
      var maxPort := GetMaxPortFromSettings(basePort);
      if maxPort.Failure? {
        return Failure(maxPort.error);
      }
      basePort := maxPort.value;
      var newPort := basePort + 1;
      devicePorts := devicePorts + [newPort];
      return Success(newPort);
    }

    /** `max(defaultPort, every persisted port)`; fails when some location
        record has no port. */
    method GetMaxPortFromSettings(defaultPort: int) returns (r: Result<int, PortError>)
      ensures r.Failure? <==> !AllPorted(locations)
      ensures r.Success? ==> IsMaxPort(r.value, defaultPort, locations)
    {
      var data := LoadDlnaLocations();
      var maxPort := defaultPort;
      var pending := data.Keys;
      while pending != {}
        invariant pending <= data.Keys
        invariant maxPort >= defaultPort
        invariant forall l :: l in data && l !in pending ==> data[l].port.Some? && maxPort >= data[l].port.value
        invariant maxPort == defaultPort || exists l :: l in data && data[l].port == Some(maxPort)
        decreases pending
      {
        var location :| location in pending;
        match data[location].port {
          case None =>
            return Failure(MissingPort);
          case Some(port) =>
            if port > maxPort {
              maxPort := port;
            }
        }
        pending := pending - {location};
      }
      return Success(maxPort);
    }
  }

  /** Two allocations with no port saved in between hand out the same port:
      the first leaves the base port at the maximum, and the second finds
      nothing larger. */
  method AllocateTwiceWithoutSaving(s: Settings) returns (first: Result<int, PortError>, second: Result<int, PortError>)
    modifies s
    ensures first.Success? ==> second == first
    ensures first.Failure? ==> second.Failure?
  {
    first := s.AllocateNewPort();
    ghost var base := s.basePort;
    second := s.AllocateNewPort();
    if first.Success? {
      MaxPortStable(base, old(s.basePort), s.locations);
      MaxPortUnique(s.basePort, base, base, s.locations);
    }
  }

  /** Saving the allocated port for a location before allocating again
      makes the next port strictly larger. */
  method AllocateSaveAllocate(s: Settings, location: string)
    returns (first: Result<int, PortError>, second: Result<int, PortError>)
    modifies s
    ensures first.Success? ==> second.Success? && second.value > first.value
  {
    first := s.AllocateNewPort();
    if first.Success? {
      s.SaveDlnaLocationPort(location, first.value);
      WithPortKeepsAllPorted(old(s.locations), location, first.value);
    }
    second := s.AllocateNewPort();
  }
}
