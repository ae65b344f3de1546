/** Display-name resolution for a DLNA device: a persisted alias wins,
    otherwise the first matching `key:value` rule of the comma-separated rule
    string, otherwise the default name. */
module AliasRules {
  import opened Wrappers
  import opened Text
  import opened Tables

  /** Unpacking a rule split on the colon into a key and a value raises
      `ValueError` unless the rule holds exactly one colon. */
  datatype AliasError = MalformedRule(rule: string)

  /** One rule `key:value`, unpacked into its key and its value. */
  function ParseRule(rule: string): (r: Result<(string, string), AliasError>)
    ensures r.Success? <==> multiset(rule)[':'] == 1
    ensures r.Success? ==> rule == r.value.0 + ":" + r.value.1
                           && ':' !in r.value.0 && ':' !in r.value.1
    ensures r.Failure? ==> r.error == MalformedRule(rule)
  {
    var parts := Split(rule, ':');
    SplitCount(rule, ':');
    SplitJoin(rule, ':');
    if |parts| == 2 then
      assert parts[1..] == [parts[1]];
      Success((parts[0], parts[1]))
    else
      Failure(MalformedRule(rule))
  }

  /** Parsing inverts writing a rule as `key:value`, for a key and a value
      without a colon. */
  lemma ParseRuleOf(key: string, value: string)
    requires ':' !in key && ':' !in value
    ensures ParseRule(key + ":" + value) == Success((key, value))
  {
    SplitAtFirstSeparator(key, value, ':');
    SplitWithoutSeparator(value, ':');
  }

  /** A rule's key selects a device when, stripped, it equals the stripped
      uuid, name or ip. */
  predicate KeyMatches(key: string, uuid: string, name: string, ip: string)
    ensures KeyMatches(key, uuid, name, ip)
            <==> Strip(key) == Strip(uuid) || Strip(key) == Strip(name) || Strip(key) == Strip(ip)
  {
    Strip(key) in [Strip(uuid), Strip(name), Strip(ip)]
  }

  /** The scan over the rules stops at this rule: it is malformed, or its
      key matches. */
  predicate Decides(rule: string, uuid: string, name: string, ip: string)
  {
    match ParseRule(rule)
    case Failure(_) => true
    case Success((k, _)) => KeyMatches(k, uuid, name, ip)
  }

  /** What a deciding rule yields: its error, or its stripped value. */
  function Verdict(rule: string): Result<string, AliasError>
  {
    match ParseRule(rule)
    case Failure(e) => Failure(e)
    case Success((_, v)) => Success(Strip(v))
  }

  /** The loop of `dlna_name_alias` over the already split rules: an error
      always names one of the rules, and a result other than the default name
      is a stripped value, with no white space at either end. */
  function ResolveRules(rules: seq<string>, uuid: string, name: string, ip: string)
    : (r: Result<string, AliasError>)
    ensures r.Failure? ==> r.error.rule in rules
    ensures r.Success? && r.value != name ==> Trimmed(r.value)
  {
    if rules == [] then Success(name)
    else
      match ParseRule(rules[0])
      case Failure(e) => Failure(e)
      case Success((k, v)) =>
        if KeyMatches(k, uuid, name, ip) then Success(Strip(v))
        else ResolveRules(rules[1..], uuid, name, ip)
  }

  /** The first rule, in order, that decides gives the result; the rules
      before it are well formed and do not match. */
  lemma {:induction false} FirstDecidingRuleWins(rules: seq<string>, uuid: string, name: string, ip: string, i: nat)
    requires i < |rules| && Decides(rules[i], uuid, name, ip)
    requires forall j :: 0 <= j < i ==> !Decides(rules[j], uuid, name, ip)
    ensures ResolveRules(rules, uuid, name, ip) == Verdict(rules[i])
  {
    if i > 0 {
      assert !Decides(rules[0], uuid, name, ip);
      FirstDecidingRuleWins(rules[1..], uuid, name, ip, i - 1);
    }
  }

  /** When no rule decides, the result is the default name. */
  lemma {:induction false} NoDecidingRuleGivesName(rules: seq<string>, uuid: string, name: string, ip: string)
    requires forall j :: 0 <= j < |rules| ==> !Decides(rules[j], uuid, name, ip)
    ensures ResolveRules(rules, uuid, name, ip) == Success(name)
  {
    if rules != [] {
      assert !Decides(rules[0], uuid, name, ip);
      NoDecidingRuleGivesName(rules[1..], uuid, name, ip);
    }
  }

  /** Conversely, every result is the default name or the verdict of some
      deciding rule: a matching rule's stripped value, or a malformed rule's
      error. */
  lemma {:induction false} ResolveRulesOrigin(rules: seq<string>, uuid: string, name: string, ip: string)
    ensures var r := ResolveRules(rules, uuid, name, ip);
            r == Success(name)
            || exists i :: 0 <= i < |rules| && Decides(rules[i], uuid, name, ip) && r == Verdict(rules[i])
  {
    if rules != [] {
      var r := ResolveRules(rules, uuid, name, ip);
      if Decides(rules[0], uuid, name, ip) {
        assert r == Verdict(rules[0]);
      } else {
        var rest := ResolveRules(rules[1..], uuid, name, ip);
        assert r == rest;
        ResolveRulesOrigin(rules[1..], uuid, name, ip);
        if r != Success(name) {
          var i :| 0 <= i < |rules[1..]| && Decides(rules[1..][i], uuid, name, ip)
                   && rest == Verdict(rules[1..][i]);
          assert rules[1..][i] == rules[i + 1];
        }
      }
    }
  }

  /** `Settings.dlna_name_alias`, over the device table and the rule string. */
  function NameAlias(devices: DeviceTable, aliases: string, uuid: string, name: string, ip: string)
    : (r: Result<string, AliasError>)
    ensures StoredAlias(devices, uuid).Some? ==> r == Success(StoredAlias(devices, uuid).value)
    ensures StoredAlias(devices, uuid).None? && aliases == "" ==> r == Success(name)
    ensures StoredAlias(devices, uuid).None? && aliases != ""
            ==> r == ResolveRules(Split(aliases, ','), uuid, name, ip)
  {
    match StoredAlias(devices, uuid)
    case Some(alias) => Success(alias)
    case None =>
      if aliases == "" then Success(name)
      else ResolveRules(Split(aliases, ','), uuid, name, ip)
  }

  /** A persisted alias wins whatever the rule string, the name or the ip. */
  lemma PersistedAliasWins(devices: DeviceTable, aliases: string, aliases': string,
                           uuid: string, name: string, name': string, ip: string, ip': string)
    requires StoredAlias(devices, uuid).Some?
    ensures NameAlias(devices, aliases, uuid, name, ip) == NameAlias(devices, aliases', uuid, name', ip')
  {
  }

  /** Once an alias is saved for a uuid, the display name of that uuid is
      the alias. */
  lemma SavedAliasIsDisplayed(devices: DeviceTable, aliases: string, uuid: string, alias: string,
                              name: string, ip: string)
    ensures NameAlias(WithAlias(devices, uuid, alias), aliases, uuid, name, ip) == Success(alias)
  {
  }
}
