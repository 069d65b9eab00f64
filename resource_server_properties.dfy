/**
 * ResourceServerProperties: the proxy's route table, read once from the
 * environment. RESOURCE_SERVERS lists service names; each name NAME gives
 * the keys NAME_URL, NAME_PATH_PREFIX and NAME_TIMEOUT (upper-cased, '-'
 * turned into '_'). A service missing its URL or path prefix is skipped.
 */
module ResourceServerProperties {
  import opened Wrappers
  import opened JavaText

  /** The timeout of a ServerConfig nobody set, and of a service without a _TIMEOUT key. */
  const DefaultTimeout: int := 30

  const MinInt: int := -0x8000_0000
  const MaxInt: int := 0x7FFF_FFFF

  /** One route: where the service lives, its timeout in seconds, and the path prefix it serves. */
  datatype ServerConfig = ServerConfig(url: string, timeout: int, pathPrefix: string)

  // Spring's String-to-Integer conversion (the environment's values are strings)

  /** StringUtils.trimAllWhitespace: every whitespace character removed. */
  function RemoveWhitespace(s: string): (r: string)
    ensures |r| <= |s|
    ensures forall k :: 0 <= k < |r| ==> !IsWhitespace(r[k])
    ensures (forall k :: 0 <= k < |s| ==> !IsWhitespace(s[k])) ==> r == s
  {
    if s == "" then ""
    else
      var rest := RemoveWhitespace(s[1..]);
      if IsWhitespace(s[0]) then rest
      else
        assert s == [s[0]] + s[1..];
        [s[0]] + rest
  }

  /** Character.digit restricted to ASCII digits and letters. */
  function DigitValue(c: char, radix: nat): (d: Option<nat>)
    ensures d.Some? ==> d.value < radix
  {
    var v :=
      if '0' <= c <= '9' then c as int - '0' as int
      else if 'a' <= c <= 'z' then c as int - 'a' as int + 10
      else if 'A' <= c <= 'Z' then c as int - 'A' as int + 10
      else radix;
    if v < radix then Some(v) else None
  }

  /** The digits of s read in the radix, most significant first; None if a character is not a digit. */
  function DigitsValue(s: string, radix: nat): (r: Option<nat>)
    ensures r.Some? <==> forall k :: 0 <= k < |s| ==> DigitValue(s[k], radix).Some?
  {
    if s == "" then Some(0)
    else
      var init := s[..|s| - 1];
      assert forall k :: 0 <= k < |init| ==> init[k] == s[k];
      match DigitsValue(init, radix)
      case None => None
      case Some(high) =>
        match DigitValue(s[|s| - 1], radix)
        case None => None
        case Some(d) => Some(high * radix + d)
  }

  /** Integer.parseInt(s, radix): an optional sign, at least one digit, and a value that fits in an int. */
  function ParseInt(s: string, radix: nat): (r: Option<int>)
    ensures r.Some? ==> MinInt <= r.value <= MaxInt
    ensures r.Some? ==> s != "" && s != "-" && s != "+"
  {
    var negative := |s| > 0 && s[0] == '-';
    var digits := if |s| > 0 && (s[0] == '-' || s[0] == '+') then s[1..] else s;
    if digits == "" then None
    else
      match DigitsValue(digits, radix)
      case None => None
      case Some(m) =>
        var v: int := if negative then -(m as int) else m;
        if MinInt <= v <= MaxInt then Some(v) else None
  }

  /** NumberUtils.isHexNumber: "0x", "0X" or "#" after an optional '-'. */
  predicate IsHexNumber(s: string) {
    var i := if |s| > 0 && s[0] == '-' then 1 else 0;
    RegionMatches(s, i, "0x") || RegionMatches(s, i, "0X") || RegionMatches(s, i, "#")
  }

  /** Integer.decode for the hexadecimal forms IsHexNumber admits. */
  function DecodeHex(s: string): (r: Option<int>)
    requires IsHexNumber(s)
    ensures r.Some? ==> MinInt <= r.value <= MaxInt
  {
    var negative := |s| > 0 && s[0] == '-';
    var i := if negative then 1 else 0;
    var start := if RegionMatches(s, i, "#") then i + 1 else i + 2;
    var digits := s[start..];
    if digits == "" || digits[0] == '-' || digits[0] == '+' then None
    else
      match DigitsValue(digits, 16)
      case None => None
      case Some(m) =>
        var v: int := if negative then -(m as int) else m;
        if MinInt <= v <= MaxInt then Some(v) else None
  }

  /**
   * The conversion of a non-empty property value to Integer: all whitespace
   * removed, then hexadecimal or decimal; None where it throws.
   */
  function ToInteger(text: string): (r: Option<int>)
    ensures r.Some? ==> MinInt <= r.value <= MaxInt
  {
    var trimmed := RemoveWhitespace(text);
    if IsHexNumber(trimmed) then DecodeHex(trimmed) else ParseInt(trimmed, 10)
  }

  /** getProperty(key, Integer.class, 30): the default when absent or empty, None when conversion fails. */
  function TimeoutProperty(env: map<string, string>, key: string): (r: Option<int>)
    ensures key !in env || env[key] == "" ==> r == Some(DefaultTimeout)
    ensures r.Some? ==> MinInt <= r.value <= MaxInt
  {
    if key !in env || env[key] == "" then Some(DefaultTimeout) else ToInteger(env[key])
  }

  /** The decimal numeral of n. */
  function Decimal(n: nat): (s: string)
    ensures |s| > 0 && forall k :: 0 <= k < |s| ==> '0' <= s[k] <= '9'
  {
    var last := ['0' + (n % 10) as char];
    if n < 10 then last else Decimal(n / 10) + last
  }

  /** Every decimal numeral reads back as its value. */
  lemma {:induction false} DecimalDigitsValue(n: nat)
    ensures DigitsValue(Decimal(n), 10) == Some(n)
  {
    var s := Decimal(n);
    if n >= 10 {
      DecimalDigitsValue(n / 10);
      assert s[..|s| - 1] == Decimal(n / 10);
    }
  }

  /** A timeout written as a decimal numeral that fits in an int is read as that number. */
  lemma DecimalTimeout(n: nat)
    requires n <= MaxInt
    ensures ToInteger(Decimal(n)) == Some(n)
  {
    var s := Decimal(n);
    assert RemoveWhitespace(s) == s by {
      assert forall k :: 0 <= k < |s| ==> !IsWhitespace(s[k]);
    }
    assert !IsHexNumber(s) by {
      assert s[0] != '-' && s[0] != '#';
      assert !RegionMatches(s, 0, "#");
      assert |s| < 2 || (s[1] != 'x' && s[1] != 'X');
    }
    assert ParseInt(s, 10) == Some(n) by {
      assert s[0] != '-' && s[0] != '+';
      DecimalDigitsValue(n);
    }
  }

  // Deriving a service from the environment

  /** The environment-variable stem of a service name: upper-cased, '-' replaced by '_'. */
  function EnvKey(name: string): string {
    Replace(ToUpper(name), "-", "_")
  }

  /** The stem keeps the name's length, turns every '-' into '_' and upper-cases every ASCII letter. */
  lemma EnvKeyChars(name: string)
    ensures |EnvKey(name)| == |name|
    ensures forall k :: 0 <= k < |name| ==> EnvKey(name)[k] == (if name[k] == '-' then '_' else UpperChar(name[k]))
  {
    ReplaceCharWise(ToUpper(name), '-', '_', 0);
  }

  /** A property that is present and not blank. */
  predicate Present(env: map<string, string>, key: string) {
    key in env && !IsBlank(env[key])
  }

  /** The service named name has its URL and path prefix and a convertible timeout. */
  predicate Complete(env: map<string, string>, name: string) {
    var key := EnvKey(name);
    TimeoutProperty(env, key + "_TIMEOUT").Some? && Present(env, key + "_URL") && Present(env, key + "_PATH_PREFIX")
  }

  /** The route the environment describes for a complete service. */
  function ConfigOf(env: map<string, string>, name: string): (c: ServerConfig)
    requires Complete(env, name)
    ensures !IsBlank(c.url) && !IsBlank(c.pathPrefix)
  {
    var key := EnvKey(name);
    ServerConfig(env[key + "_URL"], TimeoutProperty(env, key + "_TIMEOUT").value, env[key + "_PATH_PREFIX"])
  }

  /**
   * One iteration of the loop for a raw name: the table afterwards, and
   * false when the timeout conversion threw (which ends the load).
   */
  function LoadName(servers: map<string, ServerConfig>, raw: string, env: map<string, string>): (map<string, ServerConfig>, bool)
  {
    var name := Trim(raw);
    if name == "" then (servers, true)
    else
      var key := EnvKey(name);
      match TimeoutProperty(env, key + "_TIMEOUT")
      case None => (servers, false)
      case Some(timeout) =>
        if !Present(env, key + "_URL") || !Present(env, key + "_PATH_PREFIX") then (servers, true)
        else (servers[name := ServerConfig(env[key + "_URL"], timeout, env[key + "_PATH_PREFIX"])], true)
  }

  /** The loop over the names, left to right, stopping at a conversion failure. */
  function LoadNames(servers: map<string, ServerConfig>, names: seq<string>, env: map<string, string>): (map<string, ServerConfig>, bool)
    decreases |names|
  {
    if names == [] then (servers, true)
    else
      var (next, ok) := LoadName(servers, names[0], env);
      if !ok then (next, false) else LoadNames(next, names[1..], env)
  }

  /** The RESOURCE_SERVERS list, "" when unset. */
  function ServiceList(env: map<string, string>): string {
    if "RESOURCE_SERVERS" in env then env["RESOURCE_SERVERS"] else ""
  }

  /** loadFromEnvironment as a function of the table before it and the environment. */
  function Load(servers: map<string, ServerConfig>, env: map<string, string>): (map<string, ServerConfig>, bool)
  {
    var list := ServiceList(env);
    if IsBlank(list) then (servers, true) else LoadNames(servers, Split(list, ','), env)
  }

  /** The trimmed names of a list. */
  function NameSet(names: seq<string>): (s: set<string>)
    ensures forall i :: 0 <= i < |names| ==> Trim(names[i]) in s
  {
    if names == [] then {}
    else
      var rest := NameSet(names[1..]);
      assert forall i :: 1 <= i < |names| ==> names[i] == names[1..][i - 1];
      {Trim(names[0])} + rest
  }

  class ResourceServers {
    /** Service name to route; a HashMap in the source, whose iteration order the proxy inherits. */
    var resourceServers: map<string, ServerConfig>

    constructor ()
      ensures resourceServers == map[]
    {
      resourceServers := map[];
    }

    /**
     * loadFromEnvironment: for each comma-separated name, trimmed and not
     * empty, put its route when URL and path prefix are set. ok is false
     * when a timeout value cannot be converted, which throws out of the
     * loop with the routes put so far kept.
     */
    method LoadFromEnvironment(env: map<string, string>) returns (ok: bool)
      modifies this
      ensures (resourceServers, ok) == Load(old(resourceServers), env)
    {
      var list := ServiceList(env);
      if IsBlank(list) {
        return true;
      }
      var serviceNames := Split(list, ',');
      ghost var start := resourceServers;
      for i := 0 to |serviceNames|
        invariant LoadNames(start, serviceNames, env) == LoadNames(resourceServers, serviceNames[i..], env)
      {
        assert serviceNames[i..][1..] == serviceNames[i + 1..];
        var serviceName := Trim(serviceNames[i]);
        if serviceName == "" {
          continue;
        }
        var serviceKey := EnvKey(serviceName);
        var urlKey := serviceKey + "_URL";
        var pathPrefixKey := serviceKey + "_PATH_PREFIX";
        var timeoutKey := serviceKey + "_TIMEOUT";
        var timeout := TimeoutProperty(env, timeoutKey);
        if timeout.None? {
          return false;
        }
        if urlKey !in env || IsBlank(env[urlKey]) {
          continue;
        }
        if pathPrefixKey !in env || IsBlank(env[pathPrefixKey]) {
          continue;
        }
        resourceServers := resourceServers[serviceName := ServerConfig(env[urlKey], timeout.value, env[pathPrefixKey])];
      }
      assert serviceNames[|serviceNames|..] == [];
      return true;
    }
  }

  /** One iteration keeps every route, and a route it changes is the complete one of that name. */
  lemma LoadNameChanges(servers: map<string, ServerConfig>, raw: string, env: map<string, string>)
    ensures var next := LoadName(servers, raw, env).0;
      servers.Keys <= next.Keys
      && forall k :: k in next && (k !in servers || next[k] != servers[k]) ==>
           k == Trim(raw) && Complete(env, k) && next[k] == ConfigOf(env, k)
  {
  }

  /**
   * Loading never removes a route; a route it adds or replaces belongs to a
   * listed (trimmed) name, is complete, and is exactly what the environment
   * says for that name.
   */
  lemma {:induction false} LoadNamesOnlyAdds(servers: map<string, ServerConfig>, names: seq<string>, env: map<string, string>)
    ensures var after := LoadNames(servers, names, env).0;
      servers.Keys <= after.Keys
    ensures var after := LoadNames(servers, names, env).0;
      forall k :: k in after && (k !in servers || after[k] != servers[k]) ==>
        k in NameSet(names) && Complete(env, k) && after[k] == ConfigOf(env, k)
    decreases |names|
  {
    if names != [] {
      var next := LoadName(servers, names[0], env).0;
      LoadNameChanges(servers, names[0], env);
      if LoadName(servers, names[0], env).1 {
        LoadNamesOnlyAdds(next, names[1..], env);
        assert NameSet(names) == {Trim(names[0])} + NameSet(names[1..]);
      }
    }
  }

  /** A load that finishes converted the timeout of every non-empty listed name. */
  lemma {:induction false} LoadNamesConverted(servers: map<string, ServerConfig>, names: seq<string>, env: map<string, string>)
    requires LoadNames(servers, names, env).1
    ensures forall i :: 0 <= i < |names| && Trim(names[i]) != "" ==> TimeoutProperty(env, EnvKey(Trim(names[i])) + "_TIMEOUT").Some?
    decreases |names|
  {
    if names != [] {
      var (next, ok) := LoadName(servers, names[0], env);
      assert ok;
      LoadNamesConverted(next, names[1..], env);
      forall i | 0 <= i < |names| && Trim(names[i]) != ""
        ensures TimeoutProperty(env, EnvKey(Trim(names[i])) + "_TIMEOUT").Some?
      {
        if i > 0 {
          assert names[i] == names[1..][i - 1];
        }
      }
    }
  }

  /**
   * A load that finishes holds, for every listed name whose environment is
   * complete, exactly the route the environment gives; a repeated name
   * yields the same route again.
   */
  lemma {:induction false} LoadNamesInstallsListed(servers: map<string, ServerConfig>, names: seq<string>, env: map<string, string>)
    requires LoadNames(servers, names, env).1
    ensures var after := LoadNames(servers, names, env).0;
      forall i :: 0 <= i < |names| && Trim(names[i]) != "" && Complete(env, Trim(names[i])) ==>
        Trim(names[i]) in after && after[Trim(names[i])] == ConfigOf(env, Trim(names[i]))
    decreases |names|
  {
    if names != [] {
      var (next, ok) := LoadName(servers, names[0], env);
      LoadNamesInstallsListed(next, names[1..], env);
      LoadNamesOnlyAdds(next, names[1..], env);
      var after := LoadNames(servers, names, env).0;
      forall i | 0 <= i < |names| && Trim(names[i]) != "" && Complete(env, Trim(names[i]))
        ensures Trim(names[i]) in after && after[Trim(names[i])] == ConfigOf(env, Trim(names[i]))
      {
        if i > 0 {
          assert names[i] == names[1..][i - 1];
        } else {
          var n := Trim(names[0]);
          assert n in next && next[n] == ConfigOf(env, n);
        }
      }
    }
  }

  /** A blank RESOURCE_SERVERS leaves the table as it was. */
  lemma BlankListKeepsTable(servers: map<string, ServerConfig>, env: map<string, string>)
    requires IsBlank(ServiceList(env))
    ensures Load(servers, env) == (servers, true)
  {
  }

  /** Every finite set is at most as large as a set containing it. */
  lemma {:induction false} SubsetSize<T>(a: set<T>, b: set<T>)
    requires a <= b
    ensures |a| <= |b|
    decreases |b|
  {
    if a != {} {
      var x :| x in a;
      SubsetSize(a - {x}, b - {x});
    }
  }

  /** A list of names has at most as many distinct trimmed names as entries. */
  lemma {:induction false} NameSetSize(names: seq<string>)
    ensures |NameSet(names)| <= |names|
  {
    if names != [] {
      NameSetSize(names[1..]);
    }
  }

  /** A load adds at most as many routes as RESOURCE_SERVERS has comma-separated names. */
  lemma LoadAddsAtMostListed(servers: map<string, ServerConfig>, env: map<string, string>)
    ensures var after := Load(servers, env).0;
      servers.Keys <= after.Keys
      && |after.Keys - servers.Keys| <= (if IsBlank(ServiceList(env)) then 0 else |Split(ServiceList(env), ',')|)
  {
    var list := ServiceList(env);
    if !IsBlank(list) {
      var names := Split(list, ',');
      var after := Load(servers, env).0;
      LoadNamesOnlyAdds(servers, names, env);
      assert after.Keys - servers.Keys <= NameSet(names);
      SubsetSize(after.Keys - servers.Keys, NameSet(names));
      NameSetSize(names);
    }
  }

  /** Loading the same environment again changes nothing: every route it adds is already there. */
  lemma LoadIdempotent(servers: map<string, ServerConfig>, env: map<string, string>)
    requires Load(servers, env).1
    ensures Load(Load(servers, env).0, env) == Load(servers, env)
  {
    var list := ServiceList(env);
    if !IsBlank(list) {
      var names := Split(list, ',');
      var after := LoadNames(servers, names, env).0;
      LoadNamesInstallsListed(servers, names, env);
      LoadNamesConverted(servers, names, env);
      ReloadNoChange(after, names, env);
      assert Load(after, env) == LoadNames(after, names, env);
    }
  }

  /** Re-running the loop over a table that already holds every listed complete route changes nothing. */
  lemma {:induction false} ReloadNoChange(servers: map<string, ServerConfig>, names: seq<string>, env: map<string, string>)
    requires forall i :: 0 <= i < |names| && Trim(names[i]) != "" && Complete(env, Trim(names[i])) ==>
      Trim(names[i]) in servers && servers[Trim(names[i])] == ConfigOf(env, Trim(names[i]))
    requires forall i :: 0 <= i < |names| && Trim(names[i]) != "" ==> TimeoutProperty(env, EnvKey(Trim(names[i])) + "_TIMEOUT").Some?
    ensures LoadNames(servers, names, env) == (servers, true)
    decreases |names|
  {
    if names != [] {
      var n := Trim(names[0]);
      if n != "" && Complete(env, n) {
        assert servers[n := ConfigOf(env, n)] == servers;
      }
      assert LoadName(servers, names[0], env) == (servers, true);
      forall i | 0 <= i < |names[1..]| ensures names[1..][i] == names[i + 1] { }
      ReloadNoChange(servers, names[1..], env);
    }
  }
}
